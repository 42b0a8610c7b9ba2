/**
 What every run of the kernel heap keeps, and what the two operations mean for the
 clients of the heap.
 */
module HeapTheory {
  import opened Machine
  import opened HeapSpec
  import opened SeqFacts

  // ---------------------------------------------------------------- allocation step

  /** Replacing one block by a tiling of its extent. */
  lemma ReplaceTiles(bs: seq<Block>, lo: int, hi: int, i: nat, c: seq<Block>)
    requires Tiles(bs, lo, hi) && Aligned(bs) && i < |bs|
    requires c != [] && Tiles(c, bs[i].addr, bs[i].End()) && Aligned(c)
    ensures Tiles(bs[..i] + c + bs[i + 1..], lo, hi) && Aligned(bs[..i] + c + bs[i + 1..])
  {}

  lemma CarveCoalesced(bs: seq<Block>, i: nat, n: int)
    requires Coalesced(bs) && i < |bs| && bs[i].free
    ensures Coalesced(bs[..i] + Carve(bs[i], n) + bs[i + 1..])
  {}

  lemma CarveLayout(bs: seq<Block>, lo: int, hi: int, i: nat, n: int)
    requires Layout(bs, lo, hi) && i < |bs| && bs[i].free && 0 <= n <= bs[i].size && n % 16 == 0
    ensures Layout(bs[..i] + Carve(bs[i], n) + bs[i + 1..], lo, hi)
  {
    CarveTiles(bs[i], n);
    ReplaceTiles(bs, lo, hi, i, Carve(bs[i], n));
    CarveCoalesced(bs, i, n);
  }

  lemma CarveTiles(b: Block, n: int)
    requires Aligned([b]) && 0 <= n <= b.size && n % 16 == 0
    ensures Tiles(Carve(b, n), b.addr, b.End()) && Aligned(Carve(b, n))
  {
    assert [b][0] == b;
    assert (b.addr + HEADER + n) % 16 == 0 && (b.size - n - HEADER) % 16 == 0;
  }

  lemma Bytes3(pre: seq<Block>, mid: seq<Block>, post: seq<Block>)
    ensures FreeBytes(pre + mid + post) == FreeBytes(pre) + FreeBytes(mid) + FreeBytes(post)
  {
    BytesConcat(pre + mid, post);
    BytesConcat(pre, mid);
  }

  lemma BytesOne(b: Block)
    ensures FreeBytes([b]) == if b.free then b.size + HEADER else 0
  {}

  lemma BytesTwo(b: Block, c: Block)
    ensures FreeBytes([b, c]) == FreeBytes([b]) + FreeBytes([c])
  {}

  lemma CarveBytes(bs: seq<Block>, i: nat, n: int)
    requires i < |bs| && bs[i].free
    ensures var c := Carve(bs[i], n);
            FreeBytes(bs[..i] + c + bs[i + 1..]) == FreeBytes(bs) - (c[0].size + HEADER)
  {
    var c := Carve(bs[i], n);
    assert bs == bs[..i] + [bs[i]] + bs[i + 1..];
    Bytes3(bs[..i], [bs[i]], bs[i + 1..]);
    Bytes3(bs[..i], c, bs[i + 1..]);
    BytesOne(bs[i]);
    BytesOne(c[0]);
    if |c| == 2 { BytesTwo(c[0], c[1]); BytesOne(c[1]); }
  }

  lemma CarveLive(bs: seq<Block>, lo: int, hi: int, i: nat, n: int)
    requires Layout(bs, lo, hi) && i < |bs| && bs[i].free && 0 <= n <= bs[i].size
    ensures var c := Carve(bs[i], n);
            Live(bs[..i] + c + bs[i + 1..]) == Live(bs) + {c[0]} && c[0] !in Live(bs)
  {
    var c := Carve(bs[i], n);
    var r := bs[..i] + c + bs[i + 1..];
    assert bs == bs[..i] + [bs[i]] + bs[i + 1..];
    assert r[i] == c[0];
    if c[0] in Live(bs) {
      var k :| 0 <= k < |bs| && bs[k] == c[0];
      if k < i { Ordered(bs, lo, hi, k, i); } else { Ordered(bs, lo, hi, i, k); }
    }
  }

  lemma RoundBounds(n: nat)
    requires n < U64
    ensures Round16(n) % 16 == 0
    ensures n <= Round16(n) <==> n + 15 < U64
    ensures Round16(n) <= n + 15
    ensures n + 15 >= U64 ==> Round16(n) == 0
  {}

  // ---------------------------------------------------------------- release step

  lemma MergeTiles(bs: seq<Block>, lo: int, hi: int, i: nat)
    requires Tiles(bs, lo, hi) && Aligned(bs) && i + 1 < |bs|
    ensures Tiles(Merge(bs, i), lo, hi) && Aligned(Merge(bs, i))
  {
    var r := Merge(bs, i);
    forall k | 0 <= k < |r|
      ensures k < i ==> r[k] == bs[k]
      ensures i < k ==> r[k] == bs[k + 1]
    {}
  }

  lemma MergeFacts(bs: seq<Block>, i: nat)
    requires i + 1 < |bs| && bs[i].free && bs[i + 1].free
    ensures Live(Merge(bs, i)) == Live(bs)
    ensures FreeBytes(Merge(bs, i)) == FreeBytes(bs)
  {
    var x, y := bs[i], bs[i + 1];
    var z := Merge(bs, i)[i];
    assert bs == bs[..i] + [x, y] + bs[i + 2..];
    Bytes3(bs[..i], [x, y], bs[i + 2..]);
    Bytes3(bs[..i], [z], bs[i + 2..]);
    BytesTwo(x, y); BytesOne(x); BytesOne(y); BytesOne(z);
  }

  lemma SetFreeLive(bs: seq<Block>, lo: int, hi: int, i: nat)
    requires Layout(bs, lo, hi) && i < |bs| && !bs[i].free
    ensures Live(bs[i := bs[i].(free := true)]) == Live(bs) - {bs[i]}
  {
    var a := bs[i := bs[i].(free := true)];
    forall b | b in a && !b.free ensures b in bs && b != bs[i] {
      var k :| 0 <= k < |a| && a[k] == b;
      assert k != i && bs[k] == b;
      if k < i { Ordered(bs, lo, hi, k, i); } else { Ordered(bs, lo, hi, i, k); }
    }
    forall b | b in bs && !b.free && b != bs[i] ensures b in a {
      var k :| 0 <= k < |bs| && bs[k] == b;
      assert a[k] == b;
    }
  }

  lemma SetFreeFacts(bs: seq<Block>, lo: int, hi: int, i: nat)
    requires Layout(bs, lo, hi) && i < |bs| && !bs[i].free
    ensures var a := bs[i := bs[i].(free := true)];
            && Tiles(a, lo, hi) && Aligned(a)
            && FreeBytes(a) == FreeBytes(bs) + bs[i].size + HEADER
  {
    var x := bs[i].(free := true);
    assert bs == bs[..i] + [bs[i]] + bs[i + 1..];
    assert bs[i := x] == bs[..i] + [x] + bs[i + 1..];
    Bytes3(bs[..i], [bs[i]], bs[i + 1..]);
    Bytes3(bs[..i], [x], bs[i + 1..]);
    BytesOne(bs[i]);
    BytesOne(x);
  }

  /** Looking one block each way is enough to restore full coalescing. */
  lemma FreeAtCoalesced(bs: seq<Block>, i: nat)
    requires Coalesced(bs) && i < |bs| && !bs[i].free
    ensures Coalesced(FreeAt(bs, i))
  {
    var a := bs[i := bs[i].(free := true)];
    var j := MergeNext(a, i);
    assert forall k :: 0 <= k < i ==> j[k] == bs[k];
    assert j[i].free;
    assert i + 1 < |j| ==> !j[i + 1].free;
    forall k | 0 < k < |j| && k != i ensures !(j[k - 1].free && j[k].free) {
      if i + 1 < k {
        var d := |bs| - |j|;
        assert j[k] == bs[k + d] && j[k - 1] == bs[k - 1 + d];
      }
    }
    if i > 0 && j[i - 1].free {
      var r := Merge(j, i - 1);
      forall k | 0 < k < |r| ensures !(r[k - 1].free && r[k].free) {
        if k < i - 1 {
          assert r[k - 1] == bs[k - 1] && r[k] == bs[k];
        } else if k == i - 1 {
          assert r[k - 1] == bs[k - 1] && bs[k].free;
        } else {
          assert r[k] == j[k + 1];
        }
      }
    }
  }

  lemma FreeAtFacts(bs: seq<Block>, lo: int, hi: int, i: nat)
    requires Layout(bs, lo, hi) && i < |bs| && !bs[i].free
    ensures Layout(FreeAt(bs, i), lo, hi)
    ensures Live(FreeAt(bs, i)) == Live(bs) - {bs[i]}
    ensures FreeBytes(FreeAt(bs, i)) == FreeBytes(bs) + bs[i].size + HEADER
  {
    SetFreeFacts(bs, lo, hi, i);
    SetFreeLive(bs, lo, hi, i);
    FreeAtCoalesced(bs, i);
    var a := bs[i := bs[i].(free := true)];
    if i + 1 < |a| && a[i + 1].free { MergeTiles(a, lo, hi, i); MergeFacts(a, i); }
    var j := MergeNext(a, i);
    if i > 0 && j[i - 1].free { MergeTiles(j, lo, hi, i - 1); MergeFacts(j, i - 1); }
  }

  // ---------------------------------------------------------------- the two operations

  /** Allocation: the heap stays well formed, exactly one block becomes live, every other
      live block is untouched, and the grant is at least the request (unless rounding the
      request wrapped) and at most 15 + HEADER + 16 bytes more. */
  lemma KmallocMeaning(s: State, lo: int, hi: int, n: nat) returns (b: Block)
    requires WellFormed(s, lo, hi) && 0 <= lo && n < U64 && Kmalloc(s, n).1 != 0
    ensures WellFormed(Kmalloc(s, n).0, lo, hi)
    ensures b !in Live(s.blocks) && Live(Kmalloc(s, n).0.blocks) == Live(s.blocks) + {b}
    ensures b.Payload() == Kmalloc(s, n).1 && b.Payload() % 16 == 0
    ensures Round16(n) <= b.size <= n + 15 + HEADER + 16
    ensures hi - lo - HEADER < U32 ==> (n <= b.size <==> n + 15 < U64)
    ensures Kmalloc(s, n).0.freeSize == s.freeSize - (b.size + HEADER)
  {
    var m := Round16(n);
    RoundBounds(n);
    var i := FirstFit(s.blocks, m);
    b := Carve(s.blocks[i], m)[0];
    TakeMeaning(s, lo, hi, i, m);
  }

  lemma TakeMeaning(s: State, lo: int, hi: int, i: nat, m: int)
    requires WellFormed(s, lo, hi) && i < |s.blocks| && s.blocks[i].free && 0 <= m <= s.blocks[i].size && m % 16 == 0
    ensures var c := Carve(s.blocks[i], m);
            var t := State(s.blocks[..i] + c + s.blocks[i + 1..], s.freeSize - (c[0].size + HEADER));
            && WellFormed(t, lo, hi)
            && c[0] !in Live(s.blocks) && Live(t.blocks) == Live(s.blocks) + {c[0]}
    ensures s.blocks[i].size <= hi - lo - HEADER && s.blocks[i].addr % 16 == 0
  {
    CarveLayout(s.blocks, lo, hi, i, m);
    CarveBytes(s.blocks, i, m);
    CarveLive(s.blocks, lo, hi, i, m);
    Inside(s.blocks, lo, hi, i);
  }

  /** A pointer `kmalloc` returns was not live before, and is live after. */
  lemma NewPtr(s: State, lo: int, hi: int, n: nat)
    requires WellFormed(s, lo, hi) && 0 <= lo && n < U64 && Kmalloc(s, n).1 != 0
    ensures !LivePtr(s.blocks, Kmalloc(s, n).1) && LivePtr(Kmalloc(s, n).0.blocks, Kmalloc(s, n).1)
    ensures Find(s.blocks, Kmalloc(s, n).1) < |s.blocks|
  {
    var t := Kmalloc(s, n).0;
    var b := KmallocMeaning(s, lo, hi, n);
    assert b in Live(t.blocks);
    forall c | c in Live(s.blocks) ensures c.Payload() != b.Payload() {
      assert c in t.blocks;
      var i := FindLive(t.blocks, lo, hi, b);
      var k := FindLive(t.blocks, lo, hi, c);
    }
  }

  lemma KmallocFails(s: State, lo: int, hi: int, n: nat)
    requires WellFormed(s, lo, hi) && 0 <= lo && Kmalloc(s, n).1 == 0
    ensures Kmalloc(s, n).0 == s
  {
    var i := FirstFit(s.blocks, Round16(n));
    if i < |s.blocks| { Inside(s.blocks, lo, hi, i); }
  }

  /** Release: exactly that block stops being live, nothing else moves or is resized. */
  lemma KfreeMeaning(s: State, lo: int, hi: int, b: Block)
    requires WellFormed(s, lo, hi) && 0 <= lo && b in Live(s.blocks)
    ensures WellFormed(Kfree(s, b.Payload()), lo, hi)
    ensures Live(Kfree(s, b.Payload()).blocks) == Live(s.blocks) - {b}
    ensures Kfree(s, b.Payload()).freeSize == s.freeSize + b.size + HEADER
  {
    var i := FindLive(s.blocks, lo, hi, b);
    Inside(s.blocks, lo, hi, i);
    FreeAtFacts(s.blocks, lo, hi, i);
  }

  /** A heap from which exactly the block at `ptr` has gone is the one `kfree` leaves. */
  lemma ReleasedIs(s: State, t: State, lo: int, hi: int, b: Block)
    requires WellFormed(s, lo, hi) && 0 <= lo && b in Live(s.blocks)
    requires WellFormed(t, lo, hi) && Live(t.blocks) == Live(s.blocks) - {b}
    ensures t == Kfree(s, b.Payload())
  {
    KfreeMeaning(s, lo, hi, b);
    Canonical(t.blocks, Kfree(s, b.Payload()).blocks, lo, hi);
  }

  /** The code checks only the magic number, so a second release of the same block goes
      through; releasing a listed block keeps the heap well formed exactly when it is live. */
  lemma KfreeKeepsIffLive(s: State, lo: int, hi: int, i: nat)
    requires WellFormed(s, lo, hi) && 0 <= lo && i < |s.blocks|
    ensures WellFormed(Kfree(s, s.blocks[i].Payload()), lo, hi) <==> !s.blocks[i].free
  {
    var b := s.blocks[i];
    Inside(s.blocks, lo, hi, i);
    var k := FindLive(s.blocks, lo, hi, b);
    if b.free {
      FreeTwice(s.blocks, k);
    } else {
      KfreeMeaning(s, lo, hi, b);
    }
  }

  lemma Neighbours(bs: seq<Block>, i: nat)
    requires Coalesced(bs) && i + 1 < |bs|
    ensures !bs[i].free || !bs[i + 1].free
  {}

  lemma FreeTwice(bs: seq<Block>, k: nat)
    requires Coalesced(bs) && k < |bs| && bs[k].free
    ensures FreeAt(bs, k) == bs
  {}

  /** `kmalloc` then `kfree` of its result restores the heap exactly. */
  lemma MallocFreeRoundTrip(s: State, lo: int, hi: int, n: nat)
    requires WellFormed(s, lo, hi) && 0 <= lo && n < U64
    ensures var (s', ptr) := Kmalloc(s, n); Kfree(s', ptr) == s
  {
    var (s', ptr) := Kmalloc(s, n);
    if ptr == 0 {
      KmallocFails(s, lo, hi, n);
    } else {
      var b := KmallocMeaning(s, lo, hi, n);
      assert b in Live(s'.blocks);
      KfreeMeaning(s', lo, hi, b);
      var r := Kfree(s', ptr);
      assert Live(r.blocks) == Live(s.blocks);
      Canonical(r.blocks, s.blocks, lo, hi);
    }
  }

  // ---------------------------------------------------------------- completeness

  /** The `m + HEADER` bytes from `a` lie in the region and touch no live block, header included. */
  ghost predicate Vacant(bs: seq<Block>, lo: int, hi: int, a: int, m: int) {
    lo <= a && a + m + HEADER <= hi && forall b :: b in Live(bs) ==> a + m + HEADER <= b.addr || b.End() <= a
  }

  lemma {:induction false} Covering(bs: seq<Block>, lo: int, hi: int, a: int) returns (i: nat)
    requires Tiles(bs, lo, hi) && Aligned(bs) && lo <= a < hi
    ensures i < |bs| && bs[i].addr <= a < bs[i].End()
    decreases |bs|
  {
    if a < bs[0].End() {
      i := 0;
    } else {
      var k := Covering(bs[1..], bs[0].End(), hi, a);
      i := k + 1;
    }
  }

  lemma VacantFits(bs: seq<Block>, lo: int, hi: int, a: int, m: nat) returns (i: nat)
    requires Layout(bs, lo, hi) && Vacant(bs, lo, hi, a, m)
    ensures i < |bs| && bs[i].free && m <= bs[i].size
  {
    i := Covering(bs, lo, hi, a);
    var b := bs[i];
    assert b.free || b in Live(bs);
    assert i + 1 < |bs| ==> bs[i + 1] in Live(bs);
  }

  lemma FreeIsVacant(bs: seq<Block>, lo: int, hi: int, i: nat, m: nat)
    requires Layout(bs, lo, hi) && i < |bs| && bs[i].free && m <= bs[i].size
    ensures Vacant(bs, lo, hi, bs[i].addr, m)
  {
    Inside(bs, lo, hi, i);
    forall b | b in Live(bs)
      ensures bs[i].addr + m + HEADER <= b.addr || b.End() <= bs[i].addr
    {
      var k :| 0 <= k < |bs| && bs[k] == b;
      if k < i { Ordered(bs, lo, hi, k, i); } else { Ordered(bs, lo, hi, i, k); }
    }
  }

  /** Allocation is complete: it succeeds exactly when some contiguous span of the rounded
      request plus a header is clear of every live block, and it then returns the payload of
      the lowest-addressed free block that fits. */
  lemma KmallocComplete(s: State, lo: int, hi: int, n: nat)
    requires WellFormed(s, lo, hi) && 0 <= lo
    ensures Kmalloc(s, n).1 != 0 <==> exists a :: Vacant(s.blocks, lo, hi, a, Round16(n))
    ensures Kmalloc(s, n).1 != 0 ==>
              && (exists b :: b in s.blocks && b.free && Round16(n) <= b.size && b.Payload() == Kmalloc(s, n).1)
              && (forall b :: b in s.blocks && b.free && Round16(n) <= b.size ==> Kmalloc(s, n).1 <= b.Payload())
  {
    var bs, m := s.blocks, Round16(n);
    var i := FirstFit(bs, m);
    if i < |bs| {
      Inside(bs, lo, hi, i);
      FreeIsVacant(bs, lo, hi, i, m);
      assert bs[i] in bs;
      forall b | b in bs && b.free && m <= b.size ensures bs[i].Payload() <= b.Payload() {
        var k :| 0 <= k < |bs| && bs[k] == b;
        if i < k { Ordered(bs, lo, hi, i, k); }
      }
    } else if exists a :: Vacant(bs, lo, hi, a, m) {
      var a :| Vacant(bs, lo, hi, a, m);
      var k := VacantFits(bs, lo, hi, a, m);
      assert false;
    }
  }

  // ---------------------------------------------------------------- runs

  datatype Op = Malloc(n: nat) | Free(ptr: int)

  /** Requests are 64-bit sizes; only null or live pointers are released. */
  ghost predicate Legal(s: State, op: Op) {
    match op
    case Malloc(n) => n < U64
    case Free(ptr) => ptr == 0 || LivePtr(s.blocks, ptr)
  }

  function Step(s: State, op: Op): State {
    match op
    case Malloc(n) => Kmalloc(s, n).0
    case Free(ptr) => Kfree(s, ptr)
  }

  function Run(s: State, ops: seq<Op>): State
    decreases |ops|
  {
    if ops == [] then s else Run(Step(s, ops[0]), ops[1..])
  }

  ghost predicate LegalRun(s: State, ops: seq<Op>)
    decreases |ops|
  {
    ops == [] || (Legal(s, ops[0]) && LegalRun(Step(s, ops[0]), ops[1..]))
  }

  lemma StepKeeps(s: State, lo: int, hi: int, op: Op)
    requires WellFormed(s, lo, hi) && 0 <= lo && Legal(s, op)
    ensures WellFormed(Step(s, op), lo, hi)
  {
    match op
    case Malloc(n) =>
      if Kmalloc(s, n).1 == 0 {
        KmallocFails(s, lo, hi, n);
      } else {
        var b := KmallocMeaning(s, lo, hi, n);
      }
    case Free(ptr) =>
      if ptr != 0 {
        var b :| b in Live(s.blocks) && b.Payload() == ptr;
        KfreeMeaning(s, lo, hi, b);
      }
  }

  lemma {:induction false} RunKeeps(s: State, lo: int, hi: int, ops: seq<Op>)
    requires WellFormed(s, lo, hi) && 0 <= lo && LegalRun(s, ops)
    ensures WellFormed(Run(s, ops), lo, hi)
    decreases |ops|
  {
    if ops != [] {
      StepKeeps(s, lo, hi, ops[0]);
      RunKeeps(Step(s, ops[0]), lo, hi, ops[1..]);
    }
  }

  lemma {:induction false} BytesSum(bs: seq<Block>, lo: int, hi: int)
    requires Tiles(bs, lo, hi)
    ensures FreeBytes(bs) + LiveBytes(bs) == hi - lo
    decreases |bs|
  {
    if bs != [] { BytesSum(bs[1..], bs[0].End(), hi); }
  }

  /** Every run of `heap_init` followed by legal operations: the blocks tile the region in
      aligned pieces with no two free neighbours, sizes fit the 32-bit field, and the free
      counter with the live bytes always makes up the whole region. */
  lemma RunSafe(start: nat, size: nat, ops: seq<Op>)
    requires RegionOk(start, size)
    requires LegalRun(Initial(AlignedStart(start), AlignedStart(start) + AlignedSize(start, size)), ops)
    ensures var lo := AlignedStart(start);
            var hi := lo + AlignedSize(start, size);
            var s := Run(Initial(lo, hi), ops);
            && start <= lo && hi <= start + size
            && WellFormed(s, lo, hi)
            && (forall b :: b in s.blocks ==> 0 <= b.size < U32)
            && s.freeSize + LiveBytes(s.blocks) == hi - lo
            && 0 <= s.freeSize < U64
  {
    var lo := AlignedStart(start);
    var hi := lo + AlignedSize(start, size);
    var s0 := Initial(lo, hi);
    InitialWellFormed(lo, hi);
    RunKeeps(s0, lo, hi, ops);
    Sizes(Run(s0, ops), lo, hi);
  }

  lemma InitialWellFormed(lo: int, hi: int)
    requires lo % 16 == 0 && hi % 16 == 0 && lo + HEADER <= hi
    ensures WellFormed(Initial(lo, hi), lo, hi)
  {}

  lemma Sizes(s: State, lo: int, hi: int)
    requires WellFormed(s, lo, hi)
    ensures s.freeSize + LiveBytes(s.blocks) == hi - lo && 0 <= s.freeSize <= hi - lo
    ensures forall b :: b in s.blocks ==> 0 <= b.size <= hi - lo - HEADER
  {
    BytesSum(s.blocks, lo, hi);
    NonNegative(s.blocks);
    forall b | b in s.blocks ensures 0 <= b.size <= hi - lo - HEADER {
      var k :| 0 <= k < |s.blocks| && s.blocks[k] == b;
      Inside(s.blocks, lo, hi, k);
    }
  }

  lemma {:induction false} NonNegative(bs: seq<Block>)
    requires Aligned(bs)
    ensures FreeBytes(bs) >= 0 && LiveBytes(bs) >= 0
  {
    if bs != [] { NonNegative(bs[1..]); }
  }

  // ---------------------------------------------------------------- releasing many blocks

  function KfreeAll(s: State, ptrs: seq<int>): State
    decreases |ptrs|
  {
    if ptrs == [] then s else KfreeAll(Kfree(s, ptrs[0]), ptrs[1..])
  }

  ghost predicate AllLive(bs: seq<Block>, ptrs: seq<int>) {
    Distinct(ptrs) && forall p :: p in ptrs ==> LivePtr(bs, p)
  }

  ghost function LiveExcept(bs: seq<Block>, ptrs: seq<int>): set<Block> {
    set b | b in Live(bs) && b.Payload() !in ptrs
  }

  lemma KfreePtr(s: State, lo: int, hi: int, p: int)
    requires WellFormed(s, lo, hi) && 0 <= lo && LivePtr(s.blocks, p)
    ensures WellFormed(Kfree(s, p), lo, hi)
    ensures forall c :: c in Live(Kfree(s, p).blocks) <==> c in Live(s.blocks) && c.Payload() != p
  {
    var b :| b in Live(s.blocks) && b.Payload() == p;
    KfreeMeaning(s, lo, hi, b);
    forall c | c in Live(s.blocks) && c.Payload() == p ensures c == b { SamePayload(s.blocks, lo, hi, b, c); }
  }

  lemma SamePayload(bs: seq<Block>, lo: int, hi: int, b: Block, c: Block)
    requires Tiles(bs, lo, hi) && Aligned(bs) && b in bs && c in bs && b.Payload() == c.Payload()
    ensures b == c
  {
    var i := FindLive(bs, lo, hi, b);
    var j := FindLive(bs, lo, hi, c);
  }

  lemma {:induction false} KfreeAllMeaning(s: State, lo: int, hi: int, ptrs: seq<int>)
    requires WellFormed(s, lo, hi) && 0 <= lo && AllLive(s.blocks, ptrs)
    ensures WellFormed(KfreeAll(s, ptrs), lo, hi)
    ensures Live(KfreeAll(s, ptrs).blocks) == LiveExcept(s.blocks, ptrs)
    decreases |ptrs|
  {
    if ptrs != [] {
      assert ptrs[0] in ptrs;
      KfreePtr(s, lo, hi, ptrs[0]);
      var t := Kfree(s, ptrs[0]);
      RestLive(s.blocks, t.blocks, ptrs);
      KfreeAllMeaning(t, lo, hi, ptrs[1..]);
    }
  }

  lemma RestLive(bs: seq<Block>, bs': seq<Block>, ptrs: seq<int>)
    requires AllLive(bs, ptrs) && ptrs != []
    requires forall c :: c in Live(bs') <==> c in Live(bs) && c.Payload() != ptrs[0]
    ensures AllLive(bs', ptrs[1..]) && LiveExcept(bs', ptrs[1..]) == LiveExcept(bs, ptrs)
  {
    assert ptrs == [ptrs[0]] + ptrs[1..];
    forall q | q in ptrs[1..] ensures LivePtr(bs', q) {
      assert q in ptrs && q != ptrs[0];
      var c :| c in Live(bs) && c.Payload() == q;
      assert c in Live(bs');
    }
  }

  /** The heap left behind does not depend on the order of the releases. */
  lemma FreeOrderIrrelevant(s: State, lo: int, hi: int, ptrs: seq<int>, qtrs: seq<int>)
    requires WellFormed(s, lo, hi) && 0 <= lo && AllLive(s.blocks, ptrs) && AllLive(s.blocks, qtrs)
    requires forall p :: p in ptrs <==> p in qtrs
    ensures KfreeAll(s, ptrs) == KfreeAll(s, qtrs)
  {
    KfreeAllMeaning(s, lo, hi, ptrs);
    KfreeAllMeaning(s, lo, hi, qtrs);
    Canonical(KfreeAll(s, ptrs).blocks, KfreeAll(s, qtrs).blocks, lo, hi);
  }

  lemma AllFree(s: State, lo: int, hi: int)
    requires WellFormed(s, lo, hi) && Live(s.blocks) == {}
    ensures s == Initial(lo, hi)
  {
    var bs := s.blocks;
    forall k | 0 <= k < |bs| ensures bs[k].free {
      assert bs[k] !in Live(bs);
    }
    if 1 < |bs| { Neighbours(bs, 0); }
    assert bs == [Block(lo, hi - lo - HEADER, true)];
    BytesOne(bs[0]);
  }

  /** Releasing everything that is live, in any order, gives back the single initial block. */
  lemma FreeEverything(s: State, lo: int, hi: int, ptrs: seq<int>)
    requires WellFormed(s, lo, hi) && 0 <= lo && AllLive(s.blocks, ptrs)
    requires forall b :: b in Live(s.blocks) ==> b.Payload() in ptrs
    ensures KfreeAll(s, ptrs) == Initial(lo, hi)
  {
    KfreeAllMeaning(s, lo, hi, ptrs);
    assert LiveExcept(s.blocks, ptrs) == {};
    AllFree(KfreeAll(s, ptrs), lo, hi);
  }

  // ---------------------------------------------------------------- isolation of clients

  /** Two live blocks never overlap, headers included, and no header lies in a live payload. */
  lemma LiveDisjoint(bs: seq<Block>, lo: int, hi: int, a: Block, b: Block)
    requires Layout(bs, lo, hi) && a in Live(bs) && b in bs && a != b
    ensures a.End() <= b.addr || b.End() <= a.addr
    ensures b.addr + HEADER <= a.Payload() || a.End() <= b.addr
  {
    var i := FindLive(bs, lo, hi, a);
    var j := FindLive(bs, lo, hi, b);
    if i < j { Ordered(bs, lo, hi, i, j); } else { Ordered(bs, lo, hi, j, i); }
  }
}
