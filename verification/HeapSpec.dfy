/**
 The kernel heap as a value: the list of its blocks in address order, with the byte
 counter kept beside it. `Kmalloc` and `Kfree` are the list-level meaning of the two
 operations; the module `Heap` shows that the linked headers implement them.
 */
module HeapSpec {
  import opened Machine

  const HEADER: int := 32

  datatype Block = Block(addr: int, size: int, free: bool) {
    function End(): int { addr + HEADER + size }
    function Payload(): int { addr + HEADER }
  }

  datatype State = State(blocks: seq<Block>, freeSize: int)

  // ---------------------------------------------------------------- operations

  /** Rounding up to 16 in 64-bit arithmetic: the addition can wrap. */
  function Round16(n: nat): (r: nat) {
    (n + 15) % U64 / 16 * 16
  }

  function AlignedStart(start: nat): nat { (start + 15) / 16 * 16 }

  function AlignedSize(start: nat, size: nat): int {
    (size - (AlignedStart(start) - start)) / 16 * 16
  }

  /** The region handed to the allocator leaves room for a header and its block size
      is representable in the 32-bit size field. */
  ghost predicate RegionOk(start: nat, size: nat) {
    && 0 < start && start + size < U64
    && HEADER <= AlignedSize(start, size)
    && AlignedSize(start, size) - HEADER < U32
  }

  function Initial(lo: int, hi: int): State {
    State([Block(lo, hi - lo - HEADER, true)], hi - lo)
  }

  /** Index of the first block that is free and holds `n` bytes; `|bs|` if there is none. */
  function FirstFit(bs: seq<Block>, n: int): (i: nat)
    ensures i <= |bs|
    ensures i < |bs| ==> bs[i].free && n <= bs[i].size
    ensures forall j :: 0 <= j < i ==> !(bs[j].free && n <= bs[j].size)
  {
    if bs == [] then 0
    else if bs[0].free && n <= bs[0].size then 0
    else 1 + FirstFit(bs[1..], n)
  }

  /** What replaces a free block chosen for a rounded request of `n` bytes. */
  function Carve(b: Block, n: int): seq<Block> {
    if b.size > n + HEADER + 16
    then [Block(b.addr, n, false), Block(b.addr + HEADER + n, b.size - n - HEADER, true)]
    else [Block(b.addr, b.size, false)]
  }

  function Kmalloc(s: State, n: nat): (State, int) {
    var i := FirstFit(s.blocks, Round16(n));
    if i == |s.blocks| then (s, 0)
    else
      var c := Carve(s.blocks[i], Round16(n));
      (State(s.blocks[..i] + c + s.blocks[i + 1..], s.freeSize - (c[0].size + HEADER)),
       s.blocks[i].Payload())
  }

  /** Fuses the blocks at `i` and `i + 1`. */
  function Merge(bs: seq<Block>, i: nat): seq<Block>
    requires i + 1 < |bs|
  {
    bs[..i] + [Block(bs[i].addr, bs[i].size + bs[i + 1].size + HEADER, bs[i].free)] + bs[i + 2..]
  }

  function MergeNext(bs: seq<Block>, i: nat): seq<Block> {
    if i + 1 < |bs| && bs[i + 1].free then Merge(bs, i) else bs
  }

  function FreeAt(bs: seq<Block>, i: nat): seq<Block>
    requires i < |bs|
  {
    var joined := MergeNext(bs[i := bs[i].(free := true)], i);
    if i > 0 && joined[i - 1].free then Merge(joined, i - 1) else joined
  }

  /** Index of the block whose payload starts at `ptr`; `|bs|` if there is none. */
  function Find(bs: seq<Block>, ptr: int): (i: nat)
    ensures i <= |bs|
    ensures i < |bs| ==> bs[i].Payload() == ptr
    ensures i == |bs| ==> forall j :: 0 <= j < |bs| ==> bs[j].Payload() != ptr
  {
    if bs == [] then 0
    else if bs[0].Payload() == ptr then 0
    else 1 + Find(bs[1..], ptr)
  }

  function Kfree(s: State, ptr: int): State {
    var i := Find(s.blocks, ptr);
    if ptr == 0 || i == |s.blocks| then s
    else State(FreeAt(s.blocks, i), s.freeSize + s.blocks[i].size + HEADER)
  }

  // ---------------------------------------------------------------- well-formedness

  ghost predicate Tiles(bs: seq<Block>, lo: int, hi: int) {
    if bs == [] then lo == hi
    else
      && bs[0].addr == lo
      && bs[|bs| - 1].End() == hi
      && forall i :: 0 < i < |bs| ==> bs[i].addr == bs[i - 1].End()
  }

  ghost predicate Aligned(bs: seq<Block>) {
    forall i :: 0 <= i < |bs| ==> bs[i].addr % 16 == 0 && bs[i].size % 16 == 0 && 0 <= bs[i].size
  }

  ghost predicate Coalesced(bs: seq<Block>) {
    forall i :: 0 < i < |bs| ==> !(bs[i - 1].free && bs[i].free)
  }

  function FreeBytes(bs: seq<Block>): int {
    if bs == [] then 0
    else (if bs[0].free then bs[0].size + HEADER else 0) + FreeBytes(bs[1..])
  }

  function LiveBytes(bs: seq<Block>): int {
    if bs == [] then 0
    else (if bs[0].free then 0 else bs[0].size + HEADER) + LiveBytes(bs[1..])
  }

  ghost predicate Layout(bs: seq<Block>, lo: int, hi: int) {
    Tiles(bs, lo, hi) && Aligned(bs) && Coalesced(bs)
  }

  ghost predicate WellFormed(s: State, lo: int, hi: int) {
    && lo < hi
    && Layout(s.blocks, lo, hi)
    && s.freeSize == FreeBytes(s.blocks)
  }

  /** The live blocks: what clients of the heap can see. */
  ghost function Live(bs: seq<Block>): set<Block> {
    set b | b in bs && !b.free
  }

  ghost predicate LivePtr(bs: seq<Block>, ptr: int) {
    exists b :: b in Live(bs) && b.Payload() == ptr
  }

  // ---------------------------------------------------------------- basic facts

  lemma {:induction false} Ordered(bs: seq<Block>, lo: int, hi: int, i: nat, j: nat)
    requires Tiles(bs, lo, hi) && Aligned(bs) && i < j < |bs|
    ensures bs[i].End() <= bs[j].addr
  {
    if i + 1 < j { Ordered(bs, lo, hi, i, j - 1); }
  }

  lemma Inside(bs: seq<Block>, lo: int, hi: int, i: nat)
    requires Tiles(bs, lo, hi) && Aligned(bs) && i < |bs|
    ensures lo <= bs[i].addr && bs[i].End() <= hi
  {
    if 0 < i { Ordered(bs, lo, hi, 0, i); }
    if i + 1 < |bs| { Ordered(bs, lo, hi, i, |bs| - 1); }
  }

  lemma {:induction false} BytesConcat(a: seq<Block>, b: seq<Block>)
    ensures FreeBytes(a + b) == FreeBytes(a) + FreeBytes(b)
    ensures LiveBytes(a + b) == LiveBytes(a) + LiveBytes(b)
  {
    if a == [] {
      assert a + b == b;
    } else {
      assert (a + b)[1..] == a[1..] + b;
      BytesConcat(a[1..], b);
    }
  }

  lemma FindLive(bs: seq<Block>, lo: int, hi: int, b: Block) returns (i: nat)
    requires Tiles(bs, lo, hi) && Aligned(bs) && b in bs
    ensures i < |bs| && bs[i] == b && Find(bs, b.Payload()) == i
  {
    i := Find(bs, b.Payload());
    var k :| 0 <= k < |bs| && bs[k] == b;
    assert i < |bs|;
    if i < k { Ordered(bs, lo, hi, i, k); }
    if k < i { Ordered(bs, lo, hi, k, i); }
  }

  // ---------------------------------------------------------------- canonical form

  lemma {:induction false} LiveTail(bs: seq<Block>, lo: int, hi: int)
    requires Tiles(bs, lo, hi) && Aligned(bs) && bs != []
    ensures Live(bs[1..]) == Live(bs) - {bs[0]}
    ensures Tiles(bs[1..], bs[0].End(), hi)
  {
    forall b | b in bs[1..] ensures b != bs[0] {
      var k :| 0 <= k < |bs[1..]| && bs[1..][k] == b;
      Ordered(bs, lo, hi, 0, k + 1);
    }
    assert bs == [bs[0]] + bs[1..];
  }

  /** A free first block ends where the first live block begins. */
  lemma FreeHeadReach(a: seq<Block>, b: seq<Block>, lo: int, hi: int)
    requires Layout(a, lo, hi) && Layout(b, lo, hi) && Live(a) == Live(b)
    requires a != [] && b != [] && a[0].free && b[0].free
    ensures a[0].End() <= b[0].End()
  {
    if b[0].End() < a[0].End() {
      Inside(a, lo, hi, 0);
      assert 1 < |b|;
      assert b[1] in Live(b);
      var k :| 0 <= k < |a| && a[k] == b[1];
      if 0 < k { Ordered(a, lo, hi, 0, k); }
    }
  }

  /** The live blocks determine the whole list. */
  lemma {:induction false} Canonical(a: seq<Block>, b: seq<Block>, lo: int, hi: int)
    requires Layout(a, lo, hi) && Layout(b, lo, hi) && Live(a) == Live(b)
    ensures a == b
    decreases |a|
  {
    if a == [] {
      if b != [] { Inside(b, lo, hi, 0); }
    } else if b == [] {
      Inside(a, lo, hi, 0);
    } else {
      SameHead(a, b, lo, hi);
      LiveTail(a, lo, hi);
      LiveTail(b, lo, hi);
      Canonical(a[1..], b[1..], a[0].End(), hi);
      assert a == [a[0]] + a[1..] && b == [b[0]] + b[1..];
    }
  }

  lemma SameHead(a: seq<Block>, b: seq<Block>, lo: int, hi: int)
    requires Layout(a, lo, hi) && Layout(b, lo, hi) && Live(a) == Live(b)
    requires a != [] && b != []
    ensures a[0] == b[0]
  {
    if a[0].free && b[0].free {
      FreeHeadReach(a, b, lo, hi);
      FreeHeadReach(b, a, lo, hi);
    } else if !a[0].free {
      LiveHead(a, b, lo, hi);
    } else {
      LiveHead(b, a, lo, hi);
    }
  }

  lemma LiveHead(a: seq<Block>, b: seq<Block>, lo: int, hi: int)
    requires Layout(a, lo, hi) && Layout(b, lo, hi) && Live(a) == Live(b)
    requires a != [] && b != [] && !a[0].free
    ensures a[0] == b[0]
  {
    assert a[0] in Live(a);
    var k :| 0 <= k < |b| && b[k] == a[0];
    if 0 < k { Ordered(b, lo, hi, 0, k); }
  }
}
