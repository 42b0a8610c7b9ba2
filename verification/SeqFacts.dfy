/** Facts about sequences without repetitions, and the search for an empty slot. */
module SeqFacts {

  predicate Distinct<T(==)>(xs: seq<T>) {
    forall i, j :: 0 <= i < j < |xs| ==> xs[i] != xs[j]
  }

  lemma DistinctInsert<T>(xs: seq<T>, i: nat, x: T)
    requires Distinct(xs) && i <= |xs| && x !in xs
    ensures Distinct(xs[..i] + [x] + xs[i..])
  {}

  lemma DistinctRemove<T>(xs: seq<T>, i: nat)
    requires Distinct(xs) && i < |xs|
    ensures Distinct(xs[..i] + xs[i + 1..])
    ensures xs[i] !in xs[..i] + xs[i + 1..]
    ensures forall x :: x in xs[..i] + xs[i + 1..] <==> x in xs && x != xs[i]
  {}

  lemma {:induction false} NoLonger<T>(xs: seq<T>, ys: seq<T>)
    requires Distinct(xs) && Distinct(ys) && forall x :: x in xs ==> x in ys
    ensures |xs| <= |ys|
    decreases |xs|
  {
    if xs != [] {
      assert xs[0] in ys;
      var k :| 0 <= k < |ys| && ys[k] == xs[0];
      DistinctRemove(ys, k);
      var rest := ys[..k] + ys[k + 1..];
      forall x | x in xs[1..] ensures x in rest {
        assert x in xs && x != xs[0];
      }
      NoLonger(xs[1..], rest);
    }
  }

  /** Two lists without repetitions and with the same members are equally long. */
  lemma SameLength<T>(xs: seq<T>, ys: seq<T>)
    requires Distinct(xs) && Distinct(ys) && forall x :: x in xs <==> x in ys
    ensures |xs| == |ys|
  {
    NoLonger(xs, ys);
    NoLonger(ys, xs);
  }

  /** Lowest index at or after `i` that holds 0; `|xs|` if there is none. */
  function EmptySlot(xs: seq<int>, i: nat): (k: nat)
    requires i <= |xs|
    ensures i <= k <= |xs|
    ensures k < |xs| ==> xs[k] == 0
    ensures forall j :: i <= j < k ==> xs[j] != 0
    decreases |xs| - i
  {
    if i == |xs| || xs[i] == 0 then i else EmptySlot(xs, i + 1)
  }

  lemma EmptySlotIs(xs: seq<int>, k: nat)
    requires k <= |xs| && (k < |xs| ==> xs[k] == 0) && forall j :: 0 <= j < k ==> xs[j] != 0
    ensures EmptySlot(xs, 0) == k
  {}
}
