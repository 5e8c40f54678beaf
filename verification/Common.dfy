/** Small datatypes and facts shared by the components. */
module Common {
  datatype Option<+T> = None | Some(value: T)

  datatype Result<+T, +E> = Ok(value: T) | Err(error: E)

  predicate Distinct<T(==)>(xs: seq<T>) {
    forall i, j | 0 <= i < j < |xs| :: xs[i] != xs[j]
  }

  /** Nothing repeats: as many elements as there are different ones. */
  lemma {:induction false} DistinctIff<T>(xs: seq<T>)
    ensures Distinct(xs) <==> |xs| == |set x | x in xs|
    ensures |set x | x in xs| <= |xs|
  {
    if xs != [] {
      var init, last := xs[..|xs| - 1], xs[|xs| - 1];
      DistinctIff(init);
      assert (set x | x in xs) == (set x | x in init) + {last};
      if last in init {
        var i :| 0 <= i < |init| && init[i] == last;
        assert xs[i] == xs[|xs| - 1];
      } else {
        assert Distinct(xs) <==> Distinct(init);
      }
    }
  }
}
