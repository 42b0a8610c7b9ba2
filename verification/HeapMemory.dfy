/**
 The headers of the kernel heap as they lie in memory, and what `kfree` does to them for any
 intact header it is given: one on the list, or one that was merged away and that nothing has
 overwritten since.
 */
module HeapMemory {
  import opened Machine
  import opened SeqFacts
  import opened HeapSpec
  import HeapTheory

  const HEAP_MAGIC := 0x12345678

  datatype Header = Header(size: int, magic: int, isFree: bool, next: int, prev: int)

  /** The intact headers in memory, by address. A header that was merged away stays readable until
      the bytes it lies in are used for another header. */
  type Memory = map<int, Header>

  /** Storing a whole header at `a` destroys the headers it overlaps. */
  function Write(m: Memory, a: int, h: Header): Memory {
    (map x | x in m && (x + HEADER <= a || a + HEADER <= x) :: m[x])[a := h]
  }

  /** No two headers share a byte, so that a store to a field of one leaves the others alone. */
  ghost predicate Apart(m: Memory) {
    forall x, y :: x in m && y in m && x < y ==> x + HEADER <= y
  }

  /** Nobody has overwritten the magic number of a listed header. */
  ghost predicate ListedMagic(m: Memory, list: seq<int>) {
    forall a :: a in list && a in m ==> m[a].magic == HEAP_MAGIC
  }

  /** Storing into a 32-bit field. */
  function Trunc32(x: int): int { x % U32 }

  /** The two links of the header at position `i` of the list. */
  ghost predicate LinksAt(m: Memory, list: seq<int>, i: nat)
    requires i < |list| && list[i] in m
  {
    && m[list[i]].next == (if i + 1 < |list| then list[i + 1] else NULL)
    && m[list[i]].prev == (if 0 < i then list[i - 1] else NULL)
  }

  /** The headers at the addresses `list` are linked both ways, in that order. */
  ghost predicate Linked(m: Memory, list: seq<int>) {
    && Distinct(list)
    && (forall i :: 0 <= i < |list| ==> list[i] in m && list[i] != NULL)
    && (forall i {:trigger LinksAt(m, list, i)} :: 0 <= i < |list| ==> LinksAt(m, list, i))
  }

  ghost function BlockAt(m: Memory, a: int): Block
    requires a in m
  {
    Block(a, m[a].size, m[a].isFree)
  }

  ghost function Blocks(m: Memory, list: seq<int>): (bs: seq<Block>)
    requires forall i :: 0 <= i < |list| ==> list[i] in m
    ensures |bs| == |list|
    ensures forall i {:trigger bs[i]} :: 0 <= i < |list| ==> bs[i] == BlockAt(m, list[i])
  {
    seq(|list|, i requires 0 <= i < |list| => BlockAt(m, list[i]))
  }

  // ---------------------------------------------------------------- pointer surgery

  /** A new header spliced in after position `i` keeps the list linked. */
  lemma SpliceIn(m: Memory, m': Memory, list: seq<int>, i: nat, a: int)
    requires Linked(m, list) && i < |list| && a !in list && a != NULL && a in m'
    requires m'[a].next == m[list[i]].next && m'[a].prev == list[i]
    requires forall k :: 0 <= k < |list| ==> list[k] in m'
    requires m'[list[i]].next == a && m'[list[i]].prev == m[list[i]].prev
    requires i + 1 < |list| ==> m'[list[i + 1]] == m[list[i + 1]].(prev := a)
    requires forall k :: 0 <= k < |list| && k != i && k != i + 1 ==> m'[list[k]] == m[list[k]]
    ensures Linked(m', list[..i + 1] + [a] + list[i + 1..])
  {
    DistinctInsert(list, i + 1, a);
    assert LinksAt(m, list, i);
    var r := list[..i + 1] + [a] + list[i + 1..];
    forall k | 0 <= k < |r|
      ensures r[k] in m' && r[k] != NULL
      ensures LinksAt(m', r, k)
    {
      if k <= i {
        assert r[k] == list[k] && LinksAt(m, list, k);
      } else if i + 1 < k {
        assert r[k] == list[k - 1] && LinksAt(m, list, k - 1);
      }
    }
  }

  lemma SplicePositions(list: seq<int>, i: nat, a: int)
    requires i < |list|
    ensures var r := list[..i + 1] + [a] + list[i + 1..];
            |r| == |list| + 1 && r[0] == list[0] && r[i] == list[i] && r[i + 1] == a
            && r[|r| - 1] == if i + 1 == |list| then a else list[|list| - 1]
  {}

  lemma BlocksIn(m: Memory, m': Memory, list: seq<int>, i: nat, a: int)
    requires i < |list| && a in m'
    requires forall k :: 0 <= k < |list| ==> list[k] in m && list[k] in m'
    requires forall k :: 0 <= k < |list| && k != i ==> BlockAt(m', list[k]) == BlockAt(m, list[k])
    ensures var r := list[..i + 1] + [a] + list[i + 1..];
            && (forall k :: 0 <= k < |r| ==> r[k] in m')
            && Blocks(m', r) == Blocks(m, list)[..i] + [BlockAt(m', list[i]), BlockAt(m', a)] + Blocks(m, list)[i + 1..]
  {}

  lemma BlocksOut(m: Memory, m': Memory, list: seq<int>, i: nat)
    requires i + 1 < |list|
    requires forall k :: 0 <= k < |list| ==> list[k] in m && list[k] in m'
    requires BlockAt(m', list[i]) == BlockAt(m, list[i]).(size := m[list[i]].size + m[list[i + 1]].size + HEADER)
    requires forall k :: 0 <= k < |list| && k != i ==> BlockAt(m', list[k]) == BlockAt(m, list[k])
    ensures var r := list[..i + 1] + list[i + 2..];
            && (forall k :: 0 <= k < |r| ==> r[k] in m')
            && Blocks(m', r) == Merge(Blocks(m, list), i)
  {}

  /** Unlinking the header after position `i` keeps the list linked. */
  lemma SpliceOut(m: Memory, m': Memory, list: seq<int>, i: nat)
    requires Linked(m, list) && i + 1 < |list|
    requires forall k :: 0 <= k < |list| ==> list[k] in m'
    requires m'[list[i]].next == m[list[i + 1]].next && m'[list[i]].prev == m[list[i]].prev
    requires i + 2 < |list| ==> m'[list[i + 2]] == m[list[i + 2]].(prev := list[i])
    requires forall k :: 0 <= k < |list| && k != i && k != i + 1 && k != i + 2 ==> m'[list[k]] == m[list[k]]
    ensures Linked(m', list[..i + 1] + list[i + 2..])
  {
    DistinctRemove(list, i + 1);
    assert LinksAt(m, list, i + 1);
    var r := list[..i + 1] + list[i + 2..];
    forall k | 0 <= k < |r|
      ensures r[k] in m' && r[k] != NULL
      ensures LinksAt(m', r, k)
    {
      if k <= i {
        assert r[k] == list[k] && LinksAt(m, list, k);
      } else {
        assert r[k] == list[k + 1] && LinksAt(m, list, k + 1);
      }
    }
  }

  /** Changing the free flag of a header leaves the links alone. */
  lemma MarkKeeps(m: Memory, list: seq<int>, i: nat, free: bool)
    requires Linked(m, list) && i < |list|
    ensures var m' := m[list[i] := m[list[i]].(isFree := free)];
            Linked(m', list) && Blocks(m', list) == Blocks(m, list)[i := Blocks(m, list)[i].(free := free)]
  {
    var m' := m[list[i] := m[list[i]].(isFree := free)];
    forall k | 0 <= k < |list| ensures LinksAt(m', list, k) { assert LinksAt(m, list, k); }
  }

  /** The list `list` runs from `first` to `last`. */
  ghost predicate Shaped(m: Memory, first: int, last: int, list: seq<int>) {
    |list| > 0 && first == list[0] && last == list[|list| - 1] && Linked(m, list)
  }

  // ---------------------------------------------------------------- every intact header

  /** The header at `a` describes a piece of the region that ends where its `next` points. */
  ghost predicate AbutsAt(m: Memory, lo: int, hi: int, a: int)
    requires a in m
  {
    var h := m[a];
    && (a == lo || lo + HEADER <= a) && 0 <= h.size && a + HEADER + h.size <= hi
    && a + HEADER + h.size == (if h.next == NULL then hi else h.next)
  }

  /** So do all intact headers, those that were merged away included. */
  ghost predicate Abuts(m: Memory, lo: int, hi: int) {
    forall a :: a in m ==> AbutsAt(m, lo, hi, a)
  }

  lemma MarkAbuts(m: Memory, lo: int, hi: int, a: int, free: bool)
    requires Abuts(m, lo, hi) && a in m
    ensures Abuts(m[a := m[a].(isFree := free)], lo, hi)
  {
    var m' := m[a := m[a].(isFree := free)];
    forall x | x in m' ensures AbutsAt(m', lo, hi, x) { assert AbutsAt(m, lo, hi, x); }
  }

  /** What holds of all intact headers still does. */
  ghost predicate Keeps(m: Memory, m': Memory, lo: int, hi: int) {
    && (Apart(m) ==> Apart(m'))
    && (Abuts(m, lo, hi) ==> Abuts(m', lo, hi))
  }

  lemma MarkKeepsAll(m: Memory, lo: int, hi: int, a: int, free: bool)
    requires a in m
    ensures Keeps(m, m[a := m[a].(isFree := free)], lo, hi)
  {
    if Abuts(m, lo, hi) { MarkAbuts(m, lo, hi, a, free); }
  }

  /** A header stored `n` bytes into the payload of `b` touches neither `b` nor its successor. */
  predicate CanCut(m: Memory, b: int, n: int) {
    && b in m && 0 <= n
    && (m[b].next != NULL ==>
          && m[b].next in m && m[b].next != b
          && (m[b].next + HEADER <= b + HEADER + n || b + HEADER + n + HEADER <= m[b].next))
  }

  /** The memory after cutting the piece of `b` in two. */
  function Cut(m: Memory, b: int, n: int): (m': Memory)
    requires CanCut(m, b, n)
  {
    var a, next := b + HEADER + n, m[b].next;
    var w := Write(m, a, Header(Trunc32(m[b].size - n - HEADER), HEAP_MAGIC, true, next, b))[b := m[b].(size := n, next := a)];
    if next == NULL then w else w[next := w[next].(prev := a)]
  }

  /** The headers that survive a cut: all but those that share bytes with the new one. */
  lemma CutSurvivors(m: Memory, b: int, n: int, x: int)
    requires CanCut(m, b, n)
    ensures var a := b + HEADER + n;
            x in Cut(m, b, n) <==> x == a || (x in m && (x + HEADER <= a || a + HEADER <= x))
  {}

  /** Cutting keeps the intact headers apart, and abutting. */
  lemma CutKeepsAll(m: Memory, lo: int, hi: int, b: int, n: int)
    requires CanCut(m, b, n) && n + HEADER <= m[b].size < U32 && b + HEADER + n != NULL
    ensures Keeps(m, Cut(m, b, n), lo, hi)
  {
    var m' := Cut(m, b, n);
    if Abuts(m, lo, hi) {
      forall x | x in m' ensures AbutsAt(m', lo, hi, x) { CutAbutsAt(m, lo, hi, b, n, x); }
    }
  }

  lemma CutAbutsAt(m: Memory, lo: int, hi: int, b: int, n: int, x: int)
    requires CanCut(m, b, n) && n + HEADER <= m[b].size < U32 && b + HEADER + n != NULL
    requires x in Cut(m, b, n) && AbutsAt(m, lo, hi, b) && (x in m ==> AbutsAt(m, lo, hi, x))
    ensures AbutsAt(Cut(m, b, n), lo, hi, x)
  {}

  /** No listed header lies within a header's length of the address `a`. */
  ghost predicate Clear(list: seq<int>, a: int) {
    forall j :: 0 <= j < |list| ==> list[j] + HEADER <= a || a + HEADER <= list[j]
  }

  lemma ClearCanCut(m: Memory, list: seq<int>, i: nat, n: int)
    requires Linked(m, list) && i < |list| && 0 <= n && Clear(list, list[i] + HEADER + n)
    ensures CanCut(m, list[i], n)
  {
    assert LinksAt(m, list, i);
  }

  ghost function Parted(bs: seq<Block>, i: nat, n: int): seq<Block>
    requires i < |bs|
  {
    var b := bs[i];
    bs[..i] + [Block(b.addr, n, true), Block(b.addr + HEADER + n, b.size - n - HEADER, true)] + bs[i + 1..]
  }

  /** Cutting the block at position `i` makes two of it. */
  lemma CutShape(m: Memory, first: int, last: int, list: seq<int>, i: nat, n: int, m': Memory, l: seq<int>)
    requires Shaped(m, first, last, list) && i < |list| && CanCut(m, list[i], n) && n + HEADER <= m[list[i]].size < U32
    requires Clear(list, list[i] + HEADER + n) && list[i] + HEADER + n != NULL && m[list[i]].isFree
    requires m' == Cut(m, list[i], n) && l == list[..i + 1] + [list[i] + HEADER + n] + list[i + 1..]
    ensures Shaped(m', first, if m[list[i]].next == NULL then list[i] + HEADER + n else last, l)
    ensures l[i] == list[i] && m'[list[i]].size == n
    ensures Blocks(m', l) == Parted(Blocks(m, list), i, n)
    ensures ListedMagic(m, list) ==> ListedMagic(m', l)
  {
    var a := list[i] + HEADER + n;
    assert LinksAt(m, list, i);
    SpliceIn(m, m', list, i, a);
    BlocksIn(m, m', list, i, a);
    SplicePositions(list, i, a);
    assert list[i] in list && (i + 1 < |list| ==> list[i + 1] in list);
  }

  // ---------------------------------------------------------------- kfree on memory

  /** What `kfree` reads and writes. */
  datatype Raw = Raw(memory: Memory, last: int, freeSize: int)

  /** The header at `a` is intact and so are those its links lead to. */
  predicate LinksIn(m: Memory, a: int) {
    a in m && (m[a].next == NULL || m[a].next in m) && (m[a].prev == NULL || m[a].prev in m)
  }

  /** All headers are intact that `kfree` follows from `b`. */
  predicate Traceable(m: Memory, b: int) {
    LinksIn(m, b) && (m[b].next != NULL ==> LinksIn(m, m[b].next))
  }

  /** The same headers, with the same magic numbers. */
  ghost predicate Stable(m: Memory, m': Memory) {
    m'.Keys == m.Keys && forall x :: x in m ==> m'[x].magic == m[x].magic
  }

  /** The header at `b` takes over the piece of `n`. */
  function Absorb(r: Raw, b: int, n: int): (s: Raw)
    requires b in r.memory && LinksIn(r.memory, n)
    ensures Stable(r.memory, s.memory)
  {
    var m := r.memory;
    var after := m[n].next;
    var joined := m[b := m[b].(size := Trunc32(m[b].size + m[n].size + HEADER), next := after)];
    if after == NULL then Raw(joined, b, r.freeSize)
    else Raw(joined[after := joined[after].(prev := b)], r.last, r.freeSize)
  }

  function Marked(r: Raw, b: int): (s: Raw)
    requires b in r.memory
    ensures Stable(r.memory, s.memory)
    ensures Traceable(r.memory, b) ==> Traceable(s.memory, b)
  {
    Raw(r.memory[b := r.memory[b].(isFree := true)], r.last, r.freeSize + r.memory[b].size + HEADER)
  }

  function JoinNext(r: Raw, b: int): (s: Raw)
    requires Traceable(r.memory, b)
    ensures Stable(r.memory, s.memory) && LinksIn(s.memory, b)
  {
    var next := r.memory[b].next;
    if next != NULL && r.memory[next].isFree then Absorb(r, b, next) else r
  }

  function JoinPrev(r: Raw, b: int): (s: Raw)
    requires LinksIn(r.memory, b)
    ensures Stable(r.memory, s.memory)
  {
    var prev := r.memory[b].prev;
    if prev != NULL && r.memory[prev].isFree then Absorb(r, prev, b) else r
  }

  /** `kfree` after its checks, on any intact header. */
  function Freed(r: Raw, b: int): (s: Raw)
    requires Traceable(r.memory, b)
    ensures Stable(r.memory, s.memory)
  {
    JoinPrev(JoinNext(Marked(r, b), b), b)
  }

  /** `kfree` gets past its checks. */
  predicate Accepted(m: Memory, ptr: int)
    requires ptr != NULL ==> ptr - HEADER in m
  {
    ptr != NULL && m[ptr - HEADER].magic == HEAP_MAGIC
  }

  /** Everything `kfree` reads through `ptr` lies in intact headers. */
  predicate Readable(m: Memory, ptr: int) {
    ptr != NULL ==> ptr - HEADER in m && (m[ptr - HEADER].magic == HEAP_MAGIC ==> Traceable(m, ptr - HEADER))
  }

  function KfreeRaw(r: Raw, ptr: int): (s: Raw)
    requires Readable(r.memory, ptr)
    ensures Stable(r.memory, s.memory)
  {
    if Accepted(r.memory, ptr) then Freed(r, ptr - HEADER) else r
  }

  // ---------------------------------------------------------------- a listed header

  lemma ListedTraceable(m: Memory, list: seq<int>, i: nat)
    requires Linked(m, list) && i < |list|
    ensures Traceable(m, list[i])
  {
    assert LinksAt(m, list, i);
    if i + 1 < |list| { assert LinksAt(m, list, i + 1); }
  }

  /** Taking over the right neighbour on the list merges the two blocks; the neighbour's header
      stays in memory, off the list. */
  lemma AbsorbShape(r: Raw, first: int, list: seq<int>, i: nat)
    requires Shaped(r.memory, first, r.last, list) && i + 1 < |list| && LinksIn(r.memory, list[i + 1])
    requires 0 <= r.memory[list[i]].size + r.memory[list[i + 1]].size + HEADER < U32
    ensures var s, l := Absorb(r, list[i], list[i + 1]), list[..i + 1] + list[i + 2..];
            && Shaped(s.memory, first, s.last, l)
            && Blocks(s.memory, l) == Merge(Blocks(r.memory, list), i)
            && list[i + 1] in s.memory && (forall x :: x in l <==> x in list && x != list[i + 1])
  {
    var s := Absorb(r, list[i], list[i + 1]);
    assert LinksAt(r.memory, list, i) && LinksAt(r.memory, list, i + 1);
    SpliceOut(r.memory, s.memory, list, i);
    BlocksOut(r.memory, s.memory, list, i);
    DistinctRemove(list, i + 1);
  }

  lemma AbsorbAbuts(r: Raw, lo: int, hi: int, b: int, n: int)
    requires Abuts(r.memory, lo, hi) && hi - lo - HEADER < U32
    requires b in r.memory && n == r.memory[b].next && n != NULL && LinksIn(r.memory, n)
    ensures 0 <= r.memory[b].size + r.memory[n].size + HEADER < U32
    ensures Abuts(Absorb(r, b, n).memory, lo, hi)
  {
    var m, m' := r.memory, Absorb(r, b, n).memory;
    assert AbutsAt(m, lo, hi, b) && AbutsAt(m, lo, hi, n);
    forall a | a in m' ensures AbutsAt(m', lo, hi, a) { assert AbutsAt(m, lo, hi, a); }
  }

  /** The heap `r` is, with `list` as its list, linked, tiled, coalesced and exactly counted. */
  ghost predicate Sound(r: Raw, list: seq<int>, lo: int, hi: int) {
    && Shaped(r.memory, lo, r.last, list)
    && WellFormed(State(Blocks(r.memory, list), r.freeSize), lo, hi)
  }

  lemma JoinNextShape(r: Raw, list: seq<int>, i: nat, lo: int, hi: int) returns (l: seq<int>)
    requires Shaped(r.memory, lo, r.last, list) && Abuts(r.memory, lo, hi)
    requires i < |list| && hi - lo - HEADER < U32 && Traceable(r.memory, list[i])
    ensures var s, bs := JoinNext(r, list[i]), Blocks(r.memory, list);
            && Shaped(s.memory, lo, s.last, l) && Abuts(s.memory, lo, hi) && i < |l| && l[i] == list[i]
            && Blocks(s.memory, l) == MergeNext(bs, i)
            && (forall x :: x in l ==> x in list && !(i + 1 < |bs| && bs[i + 1].free && x == list[i + 1]))
  {
    assert LinksAt(r.memory, list, i);
    var next := r.memory[list[i]].next;
    if next != NULL && r.memory[next].isFree {
      AbsorbAbuts(r, lo, hi, list[i], next);
      AbsorbShape(r, lo, list, i);
      l := list[..i + 1] + list[i + 2..];
    } else {
      l := list;
    }
  }

  lemma JoinPrevShape(r: Raw, list: seq<int>, i: nat, lo: int, hi: int) returns (l: seq<int>)
    requires Shaped(r.memory, lo, r.last, list) && Abuts(r.memory, lo, hi)
    requires i < |list| && hi - lo - HEADER < U32 && LinksIn(r.memory, list[i])
    ensures var s, bs := JoinPrev(r, list[i]), Blocks(r.memory, list);
            && Shaped(s.memory, lo, s.last, l) && Abuts(s.memory, lo, hi) && (forall x :: x in l ==> x in list)
            && Blocks(s.memory, l) == if i > 0 && bs[i - 1].free then Merge(bs, i - 1) else bs
  {
    assert LinksAt(r.memory, list, i);
    var prev := r.memory[list[i]].prev;
    if prev != NULL && r.memory[prev].isFree {
      assert LinksAt(r.memory, list, i - 1);
      AbsorbAbuts(r, lo, hi, prev, list[i]);
      AbsorbShape(r, lo, list, i - 1);
      l := list[..i] + list[i + 1..];
    } else {
      l := list;
    }
  }

  lemma MarkedShape(r: Raw, list: seq<int>, i: nat, lo: int, hi: int)
    requires Shaped(r.memory, lo, r.last, list) && Abuts(r.memory, lo, hi) && i < |list|
    ensures var s, bs := Marked(r, list[i]), Blocks(r.memory, list);
            && Shaped(s.memory, lo, s.last, list) && Abuts(s.memory, lo, hi)
            && Blocks(s.memory, list) == bs[i := bs[i].(free := true)]
  {
    MarkKeeps(r.memory, list, i, true);
    MarkAbuts(r.memory, lo, hi, list[i], true);
  }

  /** Releasing a listed header computes the list-level release. */
  lemma FreedListed(r: Raw, list: seq<int>, i: nat, lo: int, hi: int) returns (l: seq<int>)
    requires Shaped(r.memory, lo, r.last, list) && Abuts(r.memory, lo, hi)
    requires i < |list| && hi - lo - HEADER < U32 && Traceable(r.memory, list[i])
    ensures var s, bs := Freed(r, list[i]), Blocks(r.memory, list);
            && Shaped(s.memory, lo, s.last, l) && Abuts(s.memory, lo, hi)
            && Blocks(s.memory, l) == FreeAt(bs, i)
            && s.freeSize == r.freeSize + bs[i].size + HEADER
            && (forall x :: x in l ==> x in list && !(i + 1 < |bs| && bs[i + 1].free && x == list[i + 1]))
  {
    MarkedShape(r, list, i, lo, hi);
    var a := Marked(r, list[i]);
    var l1 := JoinNextShape(a, list, i, lo, hi);
    l := JoinPrevShape(JoinNext(a, list[i]), l1, i, lo, hi);
  }

  /** Releasing a live header keeps the heap sound. */
  lemma FreedLive(r: Raw, list: seq<int>, i: nat, lo: int, hi: int) returns (l: seq<int>)
    requires Sound(r, list, lo, hi) && Abuts(r.memory, lo, hi) && hi - lo - HEADER < U32
    requires i < |list| && !r.memory[list[i]].isFree && Traceable(r.memory, list[i])
    ensures var s, bs := Freed(r, list[i]), Blocks(r.memory, list);
            && Sound(s, l, lo, hi) && Abuts(s.memory, lo, hi)
            && Live(Blocks(s.memory, l)) == Live(bs) - {bs[i]}
            && (forall x :: x in l ==> x in list && !(i + 1 < |bs| && bs[i + 1].free && x == list[i + 1]))
  {
    l := FreedListed(r, list, i, lo, hi);
    HeapTheory.FreeAtFacts(Blocks(r.memory, list), lo, hi, i);
  }

  // ---------------------------------------------------------------- any other header

  /** A list is walked the same way up to the first changed `next`. */
  lemma {:induction false} SameWalk(m: Memory, m': Memory, list: seq<int>, l: seq<int>, j: nat)
    requires Linked(m, list) && Linked(m', l) && 0 < |l| && j < |list| && l[0] == list[0]
    requires forall k :: 0 <= k < j ==> list[k] in m' && m'[list[k]].next == m[list[k]].next
    ensures j < |l| && l[j] == list[j]
  {
    if j > 0 {
      SameWalk(m, m', list, l, j - 1);
      assert LinksAt(m, list, j - 1) && LinksAt(m', l, j - 1);
    }
  }

  /** A walk over headers whose `next` did not change finds the same list. */
  lemma SameList(m: Memory, m': Memory, list: seq<int>, l: seq<int>)
    requires Linked(m, list) && Linked(m', l) && 0 < |l| && 0 < |list| && l[0] == list[0]
    requires forall k :: 0 <= k < |list| ==> list[k] in m' && m'[list[k]].next == m[list[k]].next
    ensures l == list
  {
    forall j | 0 <= j < |list| ensures j < |l| && l[j] == list[j] { SameWalk(m, m', list, l, j); }
    assert LinksAt(m, list, |list| - 1) && LinksAt(m', l, |list| - 1);
  }

  /** If no listed block changes but the counter does, the heap is no longer sound. */
  lemma Miscounted(r: Raw, s: Raw, list: seq<int>, l: seq<int>, lo: int, hi: int)
    requires Sound(r, list, lo, hi) && s.freeSize != r.freeSize
    requires forall k :: 0 <= k < |list| ==> list[k] in s.memory && s.memory[list[k]].next == r.memory[list[k]].next
    requires forall k :: 0 <= k < |list| ==> BlockAt(s.memory, list[k]) == BlockAt(r.memory, list[k])
    ensures !Sound(s, l, lo, hi)
  {
    assert Blocks(s.memory, list) == Blocks(r.memory, list);
    if Sound(s, l, lo, hi) {
      SameList(r.memory, s.memory, list, l);
    }
  }

  lemma ListedAbuts(r: Raw, list: seq<int>, j: nat, lo: int, hi: int)
    requires Sound(r, list, lo, hi) && j < |list|
    ensures var h := r.memory[list[j]]; list[j] + HEADER + h.size == if h.next == NULL then hi else h.next
  {
    var bs := Blocks(r.memory, list);
    assert LinksAt(r.memory, list, j) && bs[j] == BlockAt(r.memory, list[j]);
    if j + 1 < |list| { assert bs[j + 1].addr == bs[j].End() && bs[j + 1] == BlockAt(r.memory, list[j + 1]); }
  }

  /** If a listed header no longer ends where its `next` points, the heap is no longer sound. */
  lemma Overlapping(r: Raw, s: Raw, list: seq<int>, l: seq<int>, j: nat, lo: int, hi: int)
    requires Sound(r, list, lo, hi) && j < |list| && list[j] in s.memory
    requires forall k :: 0 <= k < j ==> list[k] in s.memory && s.memory[list[k]].next == r.memory[list[k]].next
    requires var h := s.memory[list[j]]; list[j] + HEADER + h.size != if h.next == NULL then hi else h.next
    ensures !Sound(s, l, lo, hi)
  {
    if Sound(s, l, lo, hi) {
      SameWalk(r.memory, s.memory, list, l, j);
      ListedAbuts(s, l, j, lo, hi);
    }
  }

  /** The listed headers mean the same blocks, in the same order. */
  ghost predicate SameListed(r: Raw, s: Raw, list: seq<int>) {
    forall x :: x in list ==>
      && x in r.memory && x in s.memory
      && s.memory[x].next == r.memory[x].next && BlockAt(s.memory, x) == BlockAt(r.memory, x)
  }

  /** Marking and joining forwards a header that is off the list changes no listed block. */
  lemma JoinedOff(r: Raw, list: seq<int>, b: int, lo: int, hi: int)
    requires Sound(r, list, lo, hi) && Abuts(r.memory, lo, hi) && hi - lo - HEADER < U32
    requires Traceable(r.memory, b) && b !in list
    ensures var c := JoinNext(Marked(r, b), b);
            && SameListed(r, c, list) && Abuts(c.memory, lo, hi) && c.freeSize > r.freeSize
  {
    assert AbutsAt(r.memory, lo, hi, b);
    MarkAbuts(r.memory, lo, hi, b, true);
    var a := Marked(r, b);
    var next := a.memory[b].next;
    if next != NULL && a.memory[next].isFree { AbsorbAbuts(a, lo, hi, b, next); }
  }

  lemma JoinPrevOff(c: Raw, list: seq<int>, b: int)
    requires LinksIn(c.memory, b) && forall x :: x in list ==> x in c.memory
    requires var p := c.memory[b].prev; !(p in list && p != NULL && c.memory[p].isFree)
    ensures SameListed(c, JoinPrev(c, b), list)
  {}

  /** A listed header that takes over a piece which does not follow it grows past its end. */
  lemma Outgrown(c: Raw, p: int, b: int, lo: int, hi: int)
    requires Abuts(c.memory, lo, hi) && 0 < lo && hi - lo - HEADER < U32
    requires p in c.memory && LinksIn(c.memory, b) && b != lo && b != c.memory[p].next
    ensures var h := Absorb(c, p, b).memory[p]; p + HEADER + h.size != if h.next == NULL then hi else h.next
  {
    assert AbutsAt(c.memory, lo, hi, p) && AbutsAt(c.memory, lo, hi, b);
  }

  lemma Swallowed(r: Raw, c: Raw, list: seq<int>, j: nat, b: int, l: seq<int>, lo: int, hi: int)
    requires Sound(r, list, lo, hi) && SameListed(r, c, list) && Abuts(c.memory, lo, hi)
    requires 0 < lo && hi - lo - HEADER < U32 && j < |list| && LinksIn(c.memory, b) && b !in list
    ensures !Sound(Absorb(c, list[j], b), l, lo, hi)
  {
    assert LinksAt(r.memory, list, j);
    Outgrown(c, list[j], b, lo, hi);
    Overlapping(r, Absorb(c, list[j], b), list, l, j, lo, hi);
  }

  /** Releasing a header that was merged away never leaves a sound heap. */
  lemma FreedStale(r: Raw, list: seq<int>, b: int, l: seq<int>, lo: int, hi: int)
    requires Sound(r, list, lo, hi) && Abuts(r.memory, lo, hi)
    requires 0 < lo && hi - lo - HEADER < U32 && Traceable(r.memory, b) && b !in list
    ensures !Sound(Freed(r, b), l, lo, hi)
  {
    JoinedOff(r, list, b, lo, hi);
    var c, s := JoinNext(Marked(r, b), b), Freed(r, b);
    var p := c.memory[b].prev;
    if p in list && p != NULL && c.memory[p].isFree {
      var j :| 0 <= j < |list| && list[j] == p;
      Swallowed(r, c, list, j, b, l, lo, hi);
    } else {
      JoinPrevOff(c, list, b);
      assert SameListed(r, s, list);
      Miscounted(r, s, list, l, lo, hi);
    }
  }

  /** Releasing a listed header that is already free only spoils the counter. */
  lemma FreedTwice(r: Raw, list: seq<int>, i: nat, l: seq<int>, lo: int, hi: int)
    requires Sound(r, list, lo, hi) && i < |list| && r.memory[list[i]].isFree
    requires Traceable(r.memory, list[i])
    ensures !Sound(Freed(r, list[i]), l, lo, hi)
  {
    var bs := Blocks(r.memory, list);
    assert LinksAt(r.memory, list, i) && bs[i] == BlockAt(r.memory, list[i]);
    assert i > 0 ==> bs[i - 1] == BlockAt(r.memory, list[i - 1]);
    assert i + 1 < |list| ==> bs[i + 1] == BlockAt(r.memory, list[i + 1]);
    Miscounted(r, Freed(r, list[i]), list, l, lo, hi);
  }

  /** `kfree` checks only the magic number. Of all intact headers, released ones and merged-away
      ones included, exactly the live ones leave a sound heap. */
  lemma FreedSoundIff(r: Raw, list: seq<int>, b: int, lo: int, hi: int)
    requires Sound(r, list, lo, hi) && Abuts(r.memory, lo, hi)
    requires 0 < lo && hi - lo - HEADER < U32 && Traceable(r.memory, b)
    ensures (exists l :: Sound(Freed(r, b), l, lo, hi)) <==> b in list && !r.memory[b].isFree
  {
    if b in list {
      var i :| 0 <= i < |list| && list[i] == b;
      if r.memory[b].isFree {
        forall l ensures !Sound(Freed(r, b), l, lo, hi) { FreedTwice(r, list, i, l, lo, hi); }
      } else {
        var l := FreedLive(r, list, i, lo, hi);
      }
    } else {
      forall l ensures !Sound(Freed(r, b), l, lo, hi) { FreedStale(r, list, b, l, lo, hi); }
    }
  }

  /** The header of a free right neighbour is merged away by a release and stays intact; releasing
      it as well leaves no sound heap. */
  lemma NeighbourStale(r: Raw, list: seq<int>, i: nat, lo: int, hi: int)
    requires Sound(r, list, lo, hi) && Abuts(r.memory, lo, hi) && 0 < lo && hi - lo - HEADER < U32
    requires i + 1 < |list| && !r.memory[list[i]].isFree && r.memory[list[i + 1]].isFree
    requires Traceable(r.memory, list[i])
    ensures var s, n := Freed(r, list[i]), list[i + 1];
            Traceable(s.memory, n) && s.memory[n].magic == r.memory[n].magic && forall l :: !Sound(Freed(s, n), l, lo, hi)
  {
    var s, n := Freed(r, list[i]), list[i + 1];
    var l := FreedLive(r, list, i, lo, hi);
    assert Blocks(r.memory, list)[i + 1] == BlockAt(r.memory, n);
    MergedTraceable(r, list, i);
    forall l' ensures !Sound(Freed(s, n), l', lo, hi) { FreedStale(s, l, n, l', lo, hi); }
  }

  lemma AbsorbLinks(r: Raw, b: int, n: int, x: int)
    requires b in r.memory && LinksIn(r.memory, n) && LinksIn(r.memory, x)
    ensures LinksIn(Absorb(r, b, n).memory, x)
  {}

  /** A release spoils no links. */
  lemma FreedLinks(r: Raw, b: int, x: int)
    requires Traceable(r.memory, b) && LinksIn(r.memory, x)
    ensures LinksIn(Freed(r, b).memory, x)
  {
    var a := Marked(r, b);
    var c := JoinNext(a, b);
    var next, prev := a.memory[b].next, c.memory[b].prev;
    assert LinksIn(a.memory, x);
    if next != NULL && a.memory[next].isFree { AbsorbLinks(a, b, next, x); }
    if prev != NULL && c.memory[prev].isFree { AbsorbLinks(c, prev, b, x); }
  }

  lemma MergedTraceable(r: Raw, list: seq<int>, i: nat)
    requires Linked(r.memory, list) && i + 1 < |list| && Traceable(r.memory, list[i])
    ensures Traceable(Freed(r, list[i]).memory, list[i + 1])
  {
    var n, m := list[i + 1], Freed(r, list[i]).memory;
    ListedTraceable(r.memory, list, i + 1);
    assert LinksAt(r.memory, list, i) && LinksAt(r.memory, list, i + 1);
    assert list[i] != n && (i > 0 ==> list[i - 1] != n);
    assert m[n].next == r.memory[n].next;
    FreedLinks(r, list[i], n);
    if m[n].next != NULL { FreedLinks(r, list[i], m[n].next); }
  }

  lemma LivePtrIff(m: Memory, list: seq<int>, ptr: int)
    requires Linked(m, list)
    ensures LivePtr(Blocks(m, list), ptr) <==> ptr - HEADER in list && !m[ptr - HEADER].isFree
  {
    var bs := Blocks(m, list);
    if LivePtr(bs, ptr) {
      var b :| b in Live(bs) && b.Payload() == ptr;
      var k :| 0 <= k < |bs| && bs[k] == b;
      assert list[k] == ptr - HEADER;
    }
    if ptr - HEADER in list && !m[ptr - HEADER].isFree {
      var k :| 0 <= k < |list| && list[k] == ptr - HEADER;
      assert bs[k] in Live(bs) && bs[k].Payload() == ptr;
    }
  }

  lemma LiveBlockAt(m: Memory, list: seq<int>, ptr: int)
    requires Linked(m, list) && LivePtr(Blocks(m, list), ptr)
    ensures ptr - HEADER in m && BlockAt(m, ptr - HEADER) in Live(Blocks(m, list))
  {
    LivePtrIff(m, list, ptr);
    var k :| 0 <= k < |list| && list[k] == ptr - HEADER;
    assert Blocks(m, list)[k] == BlockAt(m, ptr - HEADER);
  }

  /** A listed block may be released through its pointer, as far as reading goes. */
  lemma ListedPtr(m: Memory, list: seq<int>, ptr: int)
    requires Linked(m, list) && ListedMagic(m, list) && Find(Blocks(m, list), ptr) < |list|
    ensures Readable(m, ptr) && (ptr != NULL ==> Accepted(m, ptr))
  {
    var k := Find(Blocks(m, list), ptr);
    assert list[k] == ptr - HEADER;
    ListedTraceable(m, list, k);
  }

  lemma ListedReadable(m: Memory, list: seq<int>, ptr: int)
    requires Linked(m, list) && ListedMagic(m, list) && LivePtr(Blocks(m, list), ptr)
    ensures Readable(m, ptr) && (ptr != NULL ==> Accepted(m, ptr))
  {
    LivePtrIff(m, list, ptr);
    var k :| 0 <= k < |list| && list[k] == ptr - HEADER;
    ListedTraceable(m, list, k);
  }

  /** What `kfree` of `ptr` makes of the heap `r` with the list `list`: the heap `s` with the list `l`. */
  ghost predicate Outcome(r: Raw, list: seq<int>, ptr: int, s: Raw, l: seq<int>, lo: int, hi: int)
    requires Linked(r.memory, list) && Readable(r.memory, ptr)
  {
    var bs, accepted := Blocks(r.memory, list), Accepted(r.memory, ptr);
    && Stable(r.memory, s.memory)
    && (Sound(s, l, lo, hi) <==> accepted ==> LivePtr(bs, ptr))
    && (Sound(s, l, lo, hi) ==>
          && Abuts(s.memory, lo, hi) && (forall x :: x in l ==> x in list)
          && if accepted then Live(Blocks(s.memory, l)) == Live(bs) - {BlockAt(r.memory, ptr - HEADER)}
             else s == r && l == list)
  }

  lemma KfreePlan(r: Raw, list: seq<int>, ptr: int, lo: int, hi: int) returns (l: seq<int>)
    requires Sound(r, list, lo, hi) && Abuts(r.memory, lo, hi)
    requires 0 < lo && hi - lo - HEADER < U32 && Readable(r.memory, ptr)
    ensures Outcome(r, list, ptr, KfreeRaw(r, ptr), l, lo, hi)
  {
    if !Accepted(r.memory, ptr) {
      l := list;
      return;
    }
    LivePtrIff(r.memory, list, ptr);
    if ptr - HEADER in list && !r.memory[ptr - HEADER].isFree {
      var i :| 0 <= i < |list| && list[i] == ptr - HEADER;
      l := FreedLive(r, list, i, lo, hi);
      assert Blocks(r.memory, list)[i] == BlockAt(r.memory, ptr - HEADER);
    } else {
      FreedSoundIff(r, list, ptr - HEADER, lo, hi);
      l := [];
    }
  }
}
