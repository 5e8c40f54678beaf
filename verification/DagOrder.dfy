/**
  The order of the selected layer DAG: Kahn's loop, ties broken by the authored order.

  Layers are handled by their authored positions.  The loop finds a topological order exactly when
  there is one, and gives back the authored order of every plan whose dependencies point backwards - which
  plan validation demands.
 */
module DagOrder {
  import opened Common
  import opened Sorting

  /** A layer of the plan and the layers it names as dependencies. */
  datatype LayerRow = LayerRow(id: int, needs: set<int>)

  function Ids(rows: seq<LayerRow>): seq<int> {
    seq(|rows|, i requires 0 <= i < |rows| => rows[i].id)
  }

  /** The positions of the known dependencies of the layer at `i`. */
  function Needs(rows: seq<LayerRow>, i: nat): set<int>
    requires i < |rows|
  {
    set j | 0 <= j < |rows| && rows[j].id in rows[i].needs
  }

  ghost predicate KnownNeeds(rows: seq<LayerRow>) {
    forall i, d | 0 <= i < |rows| && d in rows[i].needs :: d in Ids(rows)
  }

  /** Every position once, each after the positions it needs. */
  ghost predicate Schedule(rows: seq<LayerRow>, p: seq<int>) {
    && Distinct(p)
    && (forall i :: i in p <==> 0 <= i < |rows|)
    && Backwards(rows, p)
  }

  ghost predicate Backwards(rows: seq<LayerRow>, p: seq<int>) {
    forall k, j | 0 <= k < |p| && 0 <= p[k] < |rows| && j in Needs(rows, p[k]) :: j in p[..k]
  }

  ghost predicate Schedulable(rows: seq<LayerRow>) {
    exists p :: Schedule(rows, p)
  }

  /** The authored tie-break: `i` is the first layer, in authored order, that is not ordered yet and whose needs are. */
  ghost predicate LeastReady(rows: seq<LayerRow>, ordered: seq<int>, i: int) {
    forall j | 0 <= j < i && j < |rows| && j !in ordered :: !(Needs(rows, j) <= Elements(ordered))
  }

  ghost predicate LeastFirst(rows: seq<LayerRow>, p: seq<int>) {
    forall k | 0 <= k < |p| :: LeastReady(rows, p[..k], p[k])
  }

  /** The schedule that takes the first ready layer at every step. */
  ghost predicate Stable(rows: seq<LayerRow>, p: seq<int>) {
    Schedule(rows, p) && LeastFirst(rows, p)
  }

  function Named(rows: seq<LayerRow>, p: seq<int>): seq<int>
    requires forall i | i in p :: 0 <= i < |rows|
  {
    seq(|p|, k requires 0 <= k < |p| => assert p[k] in p; rows[p[k]].id)
  }

  /** Every layer needs only earlier ones. */
  ghost predicate AuthoredBackwards(rows: seq<LayerRow>) {
    forall i, j | 0 <= i < |rows| && j in Needs(rows, i) :: j < i
  }

  /** What plan validation demands: contiguous ids in build order, dependencies among the earlier ones. */
  ghost predicate ValidPlan(rows: seq<LayerRow>) {
    && (forall i | 0 <= i < |rows| :: rows[i].id == i + 1)
    && (forall i, d | 0 <= i < |rows| && d in rows[i].needs :: 1 <= d <= i)
  }

  lemma ValidPlanFacts(rows: seq<LayerRow>)
    requires ValidPlan(rows)
    ensures Distinct(Ids(rows)) && Increasing(Ids(rows)) && KnownNeeds(rows) && AuthoredBackwards(rows)
  {
    forall i, d | 0 <= i < |rows| && d in rows[i].needs
      ensures d in Ids(rows)
    {
      assert Ids(rows)[d - 1] == d;
    }
  }

  // ---- counting positions -------------------------------------------------------------------------

  ghost function Below(n: nat): (s: set<int>)
    ensures forall i :: i in s <==> 0 <= i < n
    ensures |s| == n
  {
    if n == 0 then {} else Below(n - 1) + {n - 1}
  }

  ghost function Elements(p: seq<int>): set<int> {
    set i | i in p
  }

  lemma {:induction false} ElementsSize(p: seq<int>)
    requires Distinct(p)
    ensures |Elements(p)| == |p|
  {
    if p != [] {
      ElementsSize(p[1..]);
      assert p == [p[0]] + p[1..];
      assert Elements(p) == Elements(p[1..]) + {p[0]};
      assert p[0] !in Elements(p[1..]);
    }
  }

  lemma SameSize(a: set<int>, b: set<int>)
    requires a <= b && |a| == |b|
    ensures a == b
  {
    assert b == a + (b - a);
  }

  /** Distinct positions are as many as there are layers exactly when they are all of them. */
  lemma CompleteIff(p: seq<int>, n: nat)
    requires Distinct(p) && forall i | i in p :: 0 <= i < n
    ensures |p| == n <==> forall i | 0 <= i < n :: i in p
  {
    ElementsSize(p);
    assert Elements(p) <= Below(n);
    if |p| == n {
      SameSize(Elements(p), Below(n));
      forall i | 0 <= i < n
        ensures i in p
      {
        assert i in Elements(p);
      }
    }
    if forall i | 0 <= i < n :: i in p { assert Elements(p) == Below(n); }
  }

  // ---- the loop ---------------------------------------------------------------------------------

  ghost predicate Waiting(rows: seq<LayerRow>, ordered: seq<int>, remaining: seq<set<int>>) {
    |remaining| == |rows| && forall i | 0 <= i < |rows| :: remaining[i] == Needs(rows, i) - Elements(ordered)
  }

  ghost predicate LoopState(rows: seq<LayerRow>, ordered: seq<int>, ready: seq<int>, remaining: seq<set<int>>) {
    && Distinct(ordered) && Increasing(ready) && Waiting(rows, ordered, remaining)
    && (forall i | i in ordered :: 0 <= i < |rows| && i !in ready)
    && (forall i | i in ready :: 0 <= i < |rows|)
    && (forall i | 0 <= i < |rows| :: remaining[i] == {} <==> i in ordered || i in ready)
    && Backwards(rows, ordered)
  }

  /** With nothing ready, everything schedulable has been ordered. */
  lemma {:induction false} StuckHoldsSchedule(rows: seq<LayerRow>, ordered: seq<int>, remaining: seq<set<int>>,
                                        p: seq<int>, k: nat)
    requires LoopState(rows, ordered, [], remaining) && Schedule(rows, p) && k <= |p|
    ensures forall i | i in p[..k] :: i in ordered
  {
    if k > 0 {
      StuckHoldsSchedule(rows, ordered, remaining, p, k - 1);
      var i := p[k - 1];
      assert i in p;
      assert Needs(rows, i) <= Elements(ordered);
      assert remaining[i] == {};
      assert p[..k] == p[..k - 1] + [i];
    }
  }

  lemma FinishedLoop(rows: seq<LayerRow>, ordered: seq<int>, remaining: seq<set<int>>)
    requires LoopState(rows, ordered, [], remaining)
    ensures |ordered| == |rows| <==> Schedulable(rows)
    ensures |ordered| == |rows| ==> Schedule(rows, ordered)
  {
    CompleteIff(ordered, |rows|);
    if Schedulable(rows) {
      var p :| Schedule(rows, p);
      StuckHoldsSchedule(rows, ordered, remaining, p, |p|);
      assert p[..|p|] == p;
      assert forall i | 0 <= i < |rows| :: i in p;
    }
    if |ordered| == |rows| { assert Schedule(rows, ordered); }
  }

  /** Dependencies that point backwards make the loop take the positions in order. */
  ghost predicate TakenInOrder(ordered: seq<int>) {
    forall k | 0 <= k < |ordered| :: ordered[k] == k
  }

  lemma NextInOrder(rows: seq<LayerRow>, ordered: seq<int>, ready: seq<int>, remaining: seq<set<int>>)
    requires LoopState(rows, ordered, ready, remaining) && AuthoredBackwards(rows) && TakenInOrder(ordered)
    ensures ready == [] ==> |ordered| >= |rows|
    ensures ready != [] ==> ready[0] == |ordered|
  {
    var n := |ordered|;
    forall i | 0 <= i < n
      ensures i in ordered
    {
      assert ordered[i] == i;
    }
    if n < |rows| {
      assert Needs(rows, n) <= Elements(ordered);
      assert remaining[n] == {};
      assert n in ready;
    }
    if ready != [] {
      assert ready[0] in ready;
    }
  }

  /** The layers that need `layer`. */
  function Children(rows: seq<LayerRow>, layer: int): set<int> {
    set c | 0 <= c < |rows| && layer in Needs(rows, c)
  }

  /** What is left of the needs when only the children outside `pending` have been told. */
  ghost predicate ToldExcept(rows: seq<LayerRow>, layer: int, before: seq<set<int>>, pending: set<int>,
                             now: seq<set<int>>) {
    && |before| == |now| == |rows|
    && forall i | 0 <= i < |rows| ::
         now[i] == if i in Children(rows, layer) && i !in pending then before[i] - {layer} else before[i]
  }

  /** Every child loses the dependency; those left without any, and not listed yet, are unlocked. */
  method TellChildren(rows: seq<LayerRow>, layer: int, listed: seq<int>, before: seq<set<int>>)
    returns (now: seq<set<int>>, unlocked: seq<int>)
    requires |before| == |rows|
    ensures ToldExcept(rows, layer, before, {}, now)
    ensures forall i :: i in unlocked <==> i in Children(rows, layer) && now[i] == {} && i !in listed
  {
    now, unlocked := before, [];
    var children := Children(rows, layer);
    var pending := children;
    while pending != {}
      invariant pending <= children && ToldExcept(rows, layer, before, pending, now)
      invariant forall i :: i in unlocked <==> i in children && i !in pending && now[i] == {} && i !in listed
      decreases |pending|
    {
      var child :| child in pending;
      now := now[child := now[child] - {layer}];
      if now[child] == {} && child !in listed { unlocked := unlocked + [child]; }
      pending := pending - {child};
    }
  }

  lemma ToldWaits(rows: seq<LayerRow>, ordered: seq<int>, layer: int, before: seq<set<int>>, now: seq<set<int>>)
    requires Waiting(rows, ordered, before) && ToldExcept(rows, layer, before, {}, now)
    ensures Waiting(rows, ordered + [layer], now)
  {
    assert Elements(ordered + [layer]) == Elements(ordered) + {layer} by {
      assert forall i :: i in ordered + [layer] <==> i in ordered || i == layer;
    }
  }

  /** One ready layer is taken; its children lose a dependency, and those without any become ready. */
  method Take(rows: seq<LayerRow>, ordered: seq<int>, ready: seq<int>, remaining: seq<set<int>>)
    returns (ordered': seq<int>, ready': seq<int>, remaining': seq<set<int>>)
    requires LoopState(rows, ordered, ready, remaining) && ready != []
    ensures ordered' == ordered + [ready[0]] && LoopState(rows, ordered', ready', remaining')
  {
    var layer, rest := ready[0], ready[1..];
    ordered' := ordered + [layer];
    var unlocked;
    remaining', unlocked := TellChildren(rows, layer, ordered' + rest, remaining);
    ToldWaits(rows, ordered, layer, remaining, remaining');
    ready' := Sorted(rest + unlocked);
    SortedIncreasing(rest + unlocked);
    TakeKeepsState(rows, ordered, ready, remaining, remaining', unlocked, ready');
  }

  lemma TakeKeepsState(rows: seq<LayerRow>, ordered: seq<int>, ready: seq<int>, remaining: seq<set<int>>,
                       remaining': seq<set<int>>, unlocked: seq<int>, ready': seq<int>)
    requires LoopState(rows, ordered, ready, remaining) && ready != []
    requires Waiting(rows, ordered + [ready[0]], remaining')
    requires forall i :: i in unlocked <==>
               i in Children(rows, ready[0]) && remaining'[i] == {} && i !in ordered + [ready[0]] + ready[1..]
    requires Increasing(ready') && forall i :: i in ready' <==> i in ready[1..] + unlocked
    ensures LoopState(rows, ordered + [ready[0]], ready', remaining')
  {
    var layer := ready[0];
    var next := ordered + [layer];
    assert layer in ready && ready == [layer] + ready[1..];
    assert forall i | i in ready[1..] :: i in ready;
    assert forall i :: i in next <==> i in ordered || i == layer;
    forall i | 0 <= i < |rows|
      ensures remaining'[i] == {} <==> i in next || i in ready'
    {
      TakenOrReady(rows, ordered, ready, remaining, remaining', i);
    }
    TakenBackwards(rows, ordered, ready, remaining);
  }

  /** A layer waits for nothing after the step exactly when it was ordered or ready, or its last need was taken. */
  lemma TakenOrReady(rows: seq<LayerRow>, ordered: seq<int>, ready: seq<int>, remaining: seq<set<int>>,
                     remaining': seq<set<int>>, i: nat)
    requires LoopState(rows, ordered, ready, remaining) && ready != [] && i < |rows|
    requires Waiting(rows, ordered + [ready[0]], remaining')
    ensures i in ordered || i in ready ==> remaining'[i] == {}
    ensures remaining'[i] == {} ==> i in ordered || i in ready || i in Children(rows, ready[0])
  {
    var layer := ready[0];
    var next := ordered + [layer];
    assert forall j :: j in next <==> j in ordered || j == layer;
    assert Elements(next) == Elements(ordered) + {layer};
    if layer !in Needs(rows, i) { assert remaining'[i] == remaining[i]; }
    if i in ordered || i in ready { assert remaining[i] == {}; }
  }

  lemma TakenBackwards(rows: seq<LayerRow>, ordered: seq<int>, ready: seq<int>, remaining: seq<set<int>>)
    requires LoopState(rows, ordered, ready, remaining) && ready != []
    ensures Backwards(rows, ordered + [ready[0]])
  {
    var layer := ready[0];
    var next := ordered + [layer];
    assert layer in ready;
    forall k, j | 0 <= k < |next| && 0 <= next[k] < |rows| && j in Needs(rows, next[k])
      ensures j in next[..k]
    {
      if k < |ordered| {
        assert next[..k] == ordered[..k];
      } else {
        ReadyIff(rows, ordered, ready, remaining, layer);
        assert j in Elements(ordered);
        assert next[..k] == ordered;
      }
    }
  }

  lemma NothingLeft(a: set<int>, b: set<int>)
    ensures a - b == {} <==> a <= b
  {
    forall x | x in a
      ensures a - b == {} ==> x in b
    {
      assert x !in b ==> x in a - b;
    }
  }

  lemma ReadyIff(rows: seq<LayerRow>, ordered: seq<int>, ready: seq<int>, remaining: seq<set<int>>, j: nat)
    requires LoopState(rows, ordered, ready, remaining) && j < |rows|
    ensures Needs(rows, j) <= Elements(ordered) <==> j in ordered || j in ready
    ensures j in ready ==> ready[0] <= j
  {
    NothingLeft(Needs(rows, j), Elements(ordered));
  }

  /** The first ready layer is the first layer whose needs are ordered. */
  lemma TakesLeast(rows: seq<LayerRow>, ordered: seq<int>, ready: seq<int>, remaining: seq<set<int>>)
    requires LoopState(rows, ordered, ready, remaining) && ready != [] && LeastFirst(rows, ordered)
    ensures LeastFirst(rows, ordered + [ready[0]])
  {
    var next := ordered + [ready[0]];
    forall j | 0 <= j < ready[0] && j < |rows| && j !in ordered
      ensures !(Needs(rows, j) <= Elements(ordered))
    {
      ReadyIff(rows, ordered, ready, remaining, j);
    }
    assert LeastReady(rows, ordered, ready[0]);
    forall k | 0 <= k < |next|
      ensures LeastReady(rows, next[..k], next[k])
    {
      assert next[..k] == ordered[..k];
      assert ordered[..|ordered|] == ordered;
    }
  }

  /** The tie-break fixes the order: two stable schedules of the same plan agree at every position. */
  lemma {:induction false} StableIsUnique(rows: seq<LayerRow>, p: seq<int>, q: seq<int>, k: nat)
    requires Stable(rows, p) && Stable(rows, q) && k <= |p|
    ensures |p| == |q| && p[..k] == q[..k]
  {
    CompleteIff(p, |rows|);
    CompleteIff(q, |rows|);
    if k > 0 {
      StableIsUnique(rows, p, q, k - 1);
      StableStep(rows, p, q, k - 1);
      StableStep(rows, q, p, k - 1);
      assert p[..k] == p[..k - 1] + [p[k - 1]] && q[..k] == q[..k - 1] + [q[k - 1]];
    }
  }

  lemma StableStep(rows: seq<LayerRow>, p: seq<int>, q: seq<int>, k: nat)
    requires Stable(rows, p) && Stable(rows, q) && k < |p| && k < |q| && p[..k] == q[..k]
    ensures p[k] <= q[k]
  {
    var i := q[k];
    assert i in q;
    assert i !in p[..k] by {
      assert i !in q[..k];
    }
    assert Needs(rows, i) <= Elements(q[..k]);
    assert LeastReady(rows, p[..k], p[k]);
  }

  function AllNeeds(rows: seq<LayerRow>): seq<set<int>> {
    seq(|rows|, i requires 0 <= i < |rows| => Needs(rows, i))
  }

  lemma NothingTaken(rows: seq<LayerRow>)
    ensures Waiting(rows, [], AllNeeds(rows))
  {
    var none: seq<int> := [];
    assert Elements(none) == {};
  }

  lemma Started(rows: seq<LayerRow>)
    ensures LoopState(rows, [], Sorted(Free(rows, |rows|)), AllNeeds(rows))
  {
    var ready := Sorted(Free(rows, |rows|));
    SortedIncreasing(Free(rows, |rows|));
    FreeLayers(rows, |rows|);
    NothingTaken(rows);
    forall i | 0 <= i < |rows|
      ensures AllNeeds(rows)[i] == {} <==> i in ready
    {
      assert AllNeeds(rows)[i] == Needs(rows, i);
    }
  }

  lemma TakenShrinks(rows: seq<LayerRow>, ordered: seq<int>, ready: seq<int>, remaining: seq<set<int>>)
    requires LoopState(rows, ordered, ready, remaining) && ready != []
    ensures Below(|rows|) - Elements(ordered + [ready[0]]) < Below(|rows|) - Elements(ordered)
  {
    assert ready[0] in ready;
    assert forall i :: i in ordered + [ready[0]] <==> i in ordered || i == ready[0];
    assert ready[0] in Below(|rows|) - Elements(ordered);
  }

  /** What every round of the loop keeps. */
  ghost predicate Invariant(rows: seq<LayerRow>, ordered: seq<int>, ready: seq<int>, remaining: seq<set<int>>) {
    && LoopState(rows, ordered, ready, remaining) && LeastFirst(rows, ordered)
    && (AuthoredBackwards(rows) ==> TakenInOrder(ordered))
  }

  /** One round takes the first ready layer. */
  method TakeFirst(rows: seq<LayerRow>, ordered: seq<int>, ready: seq<int>, remaining: seq<set<int>>)
    returns (ordered': seq<int>, ready': seq<int>, remaining': seq<set<int>>)
    requires Invariant(rows, ordered, ready, remaining) && ready != []
    ensures Invariant(rows, ordered', ready', remaining') && ordered' == ordered + [ready[0]]
  {
    if AuthoredBackwards(rows) { NextInOrder(rows, ordered, ready, remaining); }
    TakesLeast(rows, ordered, ready, remaining);
    ordered', ready', remaining' := Take(rows, ordered, ready, remaining);
  }

  /** The stable order: at every step the first ready layer, when there is a topological order at all, else the
      authored order. */
  method TopologicalOrder(rows: seq<LayerRow>) returns (order: seq<int>)
    requires Distinct(Ids(rows))
    ensures Schedulable(rows) ==> exists p :: Stable(rows, p) && order == Named(rows, p)
    ensures !Schedulable(rows) || AuthoredBackwards(rows) ==> order == Ids(rows)
  {
    var remaining := AllNeeds(rows);
    var ready := Sorted(Free(rows, |rows|));
    var ordered: seq<int> := [];
    Started(rows);
    while ready != []
      invariant Invariant(rows, ordered, ready, remaining)
      decreases Below(|rows|) - Elements(ordered)
    {
      TakenShrinks(rows, ordered, ready, remaining);
      ordered, ready, remaining := TakeFirst(rows, ordered, ready, remaining);
    }
    order := Finish(rows, ordered, remaining);
  }

  /** The order found, or the authored order if some layer was never ready. */
  method Finish(rows: seq<LayerRow>, ordered: seq<int>, ghost remaining: seq<set<int>>) returns (order: seq<int>)
    requires Invariant(rows, ordered, [], remaining)
    ensures Schedulable(rows) ==> exists p :: Stable(rows, p) && order == Named(rows, p)
    ensures !Schedulable(rows) || AuthoredBackwards(rows) ==> order == Ids(rows)
  {
    FinishedLoop(rows, ordered, remaining);
    if AuthoredBackwards(rows) { AllInOrder(rows, ordered, remaining); }
    if |ordered| != |rows| { return Ids(rows); }
    assert Stable(rows, ordered);
    order := Named(rows, ordered);
  }

  lemma AllInOrder(rows: seq<LayerRow>, ordered: seq<int>, remaining: seq<set<int>>)
    requires LoopState(rows, ordered, [], remaining) && AuthoredBackwards(rows) && TakenInOrder(ordered)
    ensures |ordered| == |rows| && Named(rows, ordered) == Ids(rows)
  {
    NextInOrder(rows, ordered, [], remaining);
    Listed(ordered, |rows|);
  }

  lemma Listed(xs: seq<int>, k: nat)
    ensures k < |xs| ==> xs[k] in xs
  {
  }

  /** The layers among the first `n` that need nothing. */
  function Free(rows: seq<LayerRow>, n: nat): seq<int>
    requires n <= |rows|
  {
    if n == 0 then [] else Free(rows, n - 1) + if Needs(rows, n - 1) == {} then [n - 1] else []
  }

  lemma {:induction false} FreeLayers(rows: seq<LayerRow>, n: nat)
    requires n <= |rows|
    ensures forall i :: i in Free(rows, n) <==> 0 <= i < n && Needs(rows, i) == {}
  {
    if n > 0 { FreeLayers(rows, n - 1); }
  }

  // ---- the strict order ---------------------------------------------------------------------------

  datatype Defect = DuplicateIds | UnknownDependency | Cyclic

  /** Every dependency of every layer stands earlier. */
  predicate DependenciesFirst(rows: seq<LayerRow>, order: seq<int>) {
    forall k, i | 0 <= k < |order| && 0 <= i < |rows| && rows[i].id == order[k] ::
      forall d | d in rows[i].needs :: d in order[..k]
  }

  predicate HasDuplicates(ids: seq<int>) {
    exists i, j | 0 <= i < j < |ids| :: ids[i] == ids[j]
  }

  predicate HasUnknown(rows: seq<LayerRow>) {
    exists i | 0 <= i < |rows| :: exists d | d in rows[i].needs :: d !in Ids(rows)
  }

  lemma NamedFirst(rows: seq<LayerRow>, p: seq<int>)
    requires Distinct(Ids(rows)) && KnownNeeds(rows) && forall i | i in p :: 0 <= i < |rows|
    ensures DependenciesFirst(rows, Named(rows, p)) <==> Backwards(rows, p)
  {
    var order := Named(rows, p);
    forall k, i | 0 <= k < |p| && 0 <= i < |rows| && rows[i].id == order[k]
      ensures p[k] in p && i == p[k]
    {
      assert p[k] in p;
      assert Ids(rows)[i] == Ids(rows)[p[k]];
    }
    if Backwards(rows, p) {
      forall k, i, d | 0 <= k < |order| && 0 <= i < |rows| && rows[i].id == order[k] && d in rows[i].needs
        ensures d in order[..k]
      {
        assert d in Ids(rows);
        var j :| 0 <= j < |rows| && Ids(rows)[j] == d;
        assert j in Needs(rows, p[k]);
        var m :| 0 <= m < k && p[..k][m] == j;
        assert order[..k][m] == d;
      }
    }
    if DependenciesFirst(rows, order) {
      forall k, j | 0 <= k < |p| && 0 <= p[k] < |rows| && j in Needs(rows, p[k])
        ensures j in p[..k]
      {
        assert rows[j].id in order[..k];
        var m :| 0 <= m < k && order[..k][m] == rows[j].id;
        assert p[m] in p && Ids(rows)[p[m]] == Ids(rows)[j];
        assert p[..k][m] == j;
      }
    }
  }

  lemma AuthoredSchedule(rows: seq<LayerRow>)
    requires Distinct(Ids(rows)) && KnownNeeds(rows) && DependenciesFirst(rows, Ids(rows))
    ensures Schedulable(rows)
  {
    var p := Positions(|rows|);
    assert Named(rows, p) == Ids(rows);
    NamedFirst(rows, p);
    assert Schedule(rows, p);
  }

  function Positions(n: nat): (p: seq<int>)
    ensures |p| == n && forall i | 0 <= i < n :: p[i] == i
    ensures forall i :: i in p <==> 0 <= i < n
  {
    if n == 0 then [] else Positions(n - 1) + [n - 1]
  }

  /** The chain of the selected DAG: accepted exactly when ids are distinct, dependencies known and some
      topological order exists; a validated plan keeps its authored order. */
  method StrictOrder(rows: seq<LayerRow>) returns (r: Result<seq<int>, Defect>)
    ensures r.Ok? <==> Distinct(Ids(rows)) && KnownNeeds(rows) && Schedulable(rows)
    ensures r.Ok? ==> exists p :: Stable(rows, p) && r.value == Named(rows, p)
    ensures !Distinct(Ids(rows)) ==> r == Err(DuplicateIds)
    ensures Distinct(Ids(rows)) && !KnownNeeds(rows) ==> r == Err(UnknownDependency)
    ensures ValidPlan(rows) ==> r == Ok(Ids(rows))
  {
    if ValidPlan(rows) { ValidPlanFacts(rows); }
    if HasDuplicates(Ids(rows)) { return Err(DuplicateIds); }
    if HasUnknown(rows) { return Err(UnknownDependency); }
    assert KnownNeeds(rows);
    var order := TopologicalOrder(rows);
    if Schedulable(rows) {
      var p :| Stable(rows, p) && order == Named(rows, p);
      NamedFirst(rows, p);
    }
    if !DependenciesFirst(rows, order) { return Err(Cyclic); }
    if !Schedulable(rows) { AuthoredSchedule(rows); }
    if ValidPlan(rows) { ValidPlanIsScheduled(rows); }
    r := Ok(order);
  }

  lemma ValidPlanIsScheduled(rows: seq<LayerRow>)
    requires ValidPlan(rows)
    ensures DependenciesFirst(rows, Ids(rows))
  {
    forall k, i, d | 0 <= k < |rows| && 0 <= i < |rows| && rows[i].id == Ids(rows)[k] && d in rows[i].needs
      ensures d in Ids(rows)[..k]
    {
      assert Ids(rows)[..k][d - 1] == d;
    }
  }
}
