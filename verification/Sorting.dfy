/** Sorting integers without repetition. */
module Sorting {
  function Insert(x: int, sorted: seq<int>): seq<int> {
    if sorted == [] || x < sorted[0] then [x] + sorted
    else if x == sorted[0] then sorted
    else [sorted[0]] + Insert(x, sorted[1..])
  }

  function Sorted(xs: seq<int>): seq<int> {
    if xs == [] then [] else Insert(xs[0], Sorted(xs[1..]))
  }

  predicate Increasing(xs: seq<int>) {
    forall i, j | 0 <= i < j < |xs| :: xs[i] < xs[j]
  }

  lemma {:induction false} InsertIncreasing(x: int, sorted: seq<int>)
    requires Increasing(sorted)
    ensures Increasing(Insert(x, sorted))
    ensures forall y :: y in Insert(x, sorted) <==> y == x || y in sorted
  {
    if !(sorted == [] || x < sorted[0]) && x != sorted[0] {
      InsertIncreasing(x, sorted[1..]);
      var rest := Insert(x, sorted[1..]);
      forall i | 0 <= i < |rest|
        ensures sorted[0] < rest[i]
      {
        assert rest[i] in rest;
      }
      assert sorted == [sorted[0]] + sorted[1..];
    }
  }

  lemma {:induction false} SortedIncreasing(xs: seq<int>)
    ensures Increasing(Sorted(xs))
    ensures forall y :: y in Sorted(xs) <==> y in xs
  {
    if xs != [] {
      SortedIncreasing(xs[1..]);
      InsertIncreasing(xs[0], Sorted(xs[1..]));
      assert xs == [xs[0]] + xs[1..];
    }
  }
}
