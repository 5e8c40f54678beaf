/**
  The driver: it visits layers in the order of the selected DAG, rebuilds lower layers that planning
  revoked, and starts over whenever the controller has replaced a layer.

  A builder refuses to work unless every layer before its own in the chain is current.  That refusal alone
  makes a completed pass sound in any chain order, and on the chain of a validated plan it never fires: the
  driver starts every builder on current work.
 */
module RunDriver {
  import opened Common
  import opened DagOrder
  import opened Sorting

  /** A builder's start: the layer, the layers before it in the chain, the publications then current. */
  datatype BuildStart = BuildStart(layer: int, prior: seq<int>, current: set<int>)

  /** What the stages answer, by the number of the call: which publications a planning step
      revokes and whether it succeeds, what the gates say, whether a builder that works publishes. */
  datatype Stages = Stages(
    revokes: nat -> set<int>,
    plans: nat -> bool,
    clean: nat -> bool,
    gateClears: nat -> bool,
    publishes: nat -> bool,
    ownersReachable: nat -> bool)

  const NO_UPPER_BOUND := 1_000_000

  /** A missing or zero upper end means the default bound. */
  function Upper(upto: Option<int>): int {
    if upto.None? || upto.value == 0 then NO_UPPER_BOUND else upto.value
  }

  /** The layers of the chain inside the requested range, in chain order. */
  function InRange(chain: seq<int>, start: int, upto: Option<int>): seq<int> {
    if chain == [] then []
    else (if start <= chain[0] <= Upper(upto) then [chain[0]] else []) + InRange(chain[1..], start, upto)
  }

  /** The layers before `layer` in the chain. */
  function Prior(chain: seq<int>, layer: int): (prior: seq<int>)
    ensures layer !in prior
    ensures layer in chain ==> |prior| < |chain| && chain[..|prior|] == prior && chain[|prior|] == layer
  {
    if chain == [] || chain[0] == layer then [] else [chain[0]] + Prior(chain[1..], layer)
  }

  lemma {:induction false} InRangeMembers(chain: seq<int>, start: int, upto: Option<int>)
    ensures forall id :: id in InRange(chain, start, upto) <==> id in chain && start <= id <= Upper(upto)
  {
    if chain != [] {
      InRangeMembers(chain[1..], start, upto);
      assert chain == [chain[0]] + chain[1..];
    }
  }

  lemma {:induction false} NoneInRange(chain: seq<int>, start: int, upto: Option<int>)
    ensures InRange(chain, start, upto) == [] <==> forall id | id in chain :: id < start || Upper(upto) < id
  {
    if chain != [] {
      NoneInRange(chain[1..], start, upto);
      assert chain[0] in chain;
      assert forall id :: id in chain <==> id == chain[0] || id in chain[1..];
    }
  }

  /** Requested layers in the order of the chain. */
  ghost predicate InChainOrder(chain: seq<int>, ids: seq<int>) {
    && (forall k | 0 <= k < |ids| :: ids[k] in chain)
    && (forall j, k | 0 <= j < k < |ids| :: ids[j] in Prior(chain, ids[k]))
  }

  /** The requested range keeps the order of the chain. */
  lemma {:induction false} RangeInChainOrder(chain: seq<int>, start: int, upto: Option<int>)
    requires Distinct(chain)
    ensures InChainOrder(chain, InRange(chain, start, upto))
    ensures forall id :: id in InRange(chain, start, upto)
                         <==> && id in chain && start <= id
                              && if upto.Some? && upto.value != 0 then id <= upto.value else id <= 1_000_000
  {
    InRangeMembers(chain, start, upto);
    var ids := InRange(chain, start, upto);
    assert forall k | 0 <= k < |ids| :: ids[k] in ids;
    if chain != [] {
      RangeInChainOrder(chain[1..], start, upto);
      InRangeMembers(chain[1..], start, upto);
      var rest := InRange(chain[1..], start, upto);
      forall k | 0 <= k < |rest|
        ensures Prior(chain, rest[k]) == [chain[0]] + Prior(chain[1..], rest[k])
      {
        assert rest[k] in rest;
        var i :| 0 <= i < |chain[1..]| && chain[1..][i] == rest[k];
        assert chain[i + 1] == rest[k];
      }
    }
  }

  // ---- one pass, on values ------------------------------------------------------------------------

  datatype PassEnd = Completed | Stopped(dispatchable: bool)

  predicate Ready(s: BuildStart) {
    forall l | l in s.prior :: l in s.current
  }

  lemma ReadyByIndex(s: BuildStart)
    ensures Ready(s) <==> forall j | 0 <= j < |s.prior| :: s.prior[j] in s.current
  {
    if Ready(s) {
      forall j | 0 <= j < |s.prior|
        ensures s.prior[j] in s.current
      {
        var l := s.prior[j];
        assert l in s.prior;
      }
    }
  }

  /** Which publications are current, how many calls were made, which builders started. */
  datatype World = World(current: set<int>, planned: nat, gated: nat, built: nat, starts: seq<BuildStart>) {
    function Gated(): World {
      this.(gated := gated + 1)
    }

    function Planned(stages: Stages): World {
      this.(current := current - stages.revokes(planned), planned := planned + 1)
    }

    function Start(chain: seq<int>, layer: int): BuildStart {
      BuildStart(layer, Prior(chain, layer), current)
    }

    /** A builder that finds unaccepted prior work refuses; one that works may publish. */
    predicate Publishes(stages: Stages, chain: seq<int>, layer: int) {
      Ready(Start(chain, layer)) && stages.publishes(built)
    }

    function Built(stages: Stages, chain: seq<int>, layer: int): World {
      World(if Publishes(stages, chain, layer) then current + {layer} else current, planned, gated, built + 1,
            starts + [Start(chain, layer)])
    }
  }

  /** Chain layers with a smaller id and no current publication, in chain order. */
  function ReopenedLower(chain: seq<int>, id: int, current: set<int>): seq<int> {
    if chain == [] then []
    else (if chain[0] < id && chain[0] !in current then [chain[0]] else []) + ReopenedLower(chain[1..], id, current)
  }

  function Rebuilt(stages: Stages, chain: seq<int>, lower: seq<int>, w: World): (World, bool) {
    if lower == [] then (w, true)
    else
      var w' := w.Built(stages, chain, lower[0]);
      if !w.Publishes(stages, chain, lower[0]) then (w', false) else Rebuilt(stages, chain, lower[1..], w')
  }

  /** One requested layer: a current and clean layer is skipped, any other is planned and built. */
  function Visit(stages: Stages, chain: seq<int>, id: int, done: set<int>, w: World): (World, PassEnd) {
    var asked := id in done && id in w.current;
    var w0 := if asked then w.Gated() else w;
    if asked && stages.clean(w.gated) then (w0, Completed)
    else
      var w1 := w0.Planned(stages);
      if !stages.plans(w0.planned) then (w1, Stopped(false))
      else
        var w2 := w1.Gated();
        if !stages.gateClears(w1.gated) then (w2, Stopped(true))
        else
          var (w3, ok) := Rebuilt(stages, chain, ReopenedLower(chain, id, w2.current), w2);
          if !ok then (w3, Stopped(true))
          else (w3.Built(stages, chain, id), if w3.Publishes(stages, chain, id) then Completed else Stopped(true))
  }

  function Visits(stages: Stages, chain: seq<int>, ids: seq<int>, done: set<int>, w: World): (World, PassEnd) {
    if ids == [] then (w, Completed)
    else
      var (w', end) := Visit(stages, chain, ids[0], done, w);
      if end.Completed? then Visits(stages, chain, ids[1..], done, w') else (w', end)
  }

  function Pass(stages: Stages, chain: seq<int>, ids: seq<int>, done: set<int>, w: World): (World, PassEnd) {
    if !stages.ownersReachable(w.gated) then (w.Gated(), Stopped(true))
    else Visits(stages, chain, ids, done, w.Gated())
  }

  // ---- a completed pass is sound --------------------------------------------------------------------

  lemma {:induction false} RebuiltGrows(stages: Stages, chain: seq<int>, lower: seq<int>, w: World)
    ensures var (w', ok) := Rebuilt(stages, chain, lower, w);
            && w.starts <= w'.starts && w.current <= w'.current
            && (ok ==> forall l | l in lower :: l in w'.current)
  {
    if lower != [] && w.Publishes(stages, chain, lower[0]) {
      RebuiltGrows(stages, chain, lower[1..], w.Built(stages, chain, lower[0]));
      assert lower == [lower[0]] + lower[1..];
    }
  }

  /** A completed visit leaves its layer current, and either changes no publication or has found the whole
      chain before the layer current. */
  lemma VisitKeeps(stages: Stages, chain: seq<int>, id: int, done: set<int>, w: World)
    ensures var (w', end) := Visit(stages, chain, id, done, w);
            && w.starts <= w'.starts
            && (end.Completed? ==> id in w'.current)
            && (end.Completed? ==> w'.current == w.current || forall l | l in Prior(chain, id) :: l in w'.current)
  {
    var asked := id in done && id in w.current;
    var w0 := if asked then w.Gated() else w;
    if !(asked && stages.clean(w.gated)) {
      var w2 := w0.Planned(stages).Gated();
      RebuiltGrows(stages, chain, ReopenedLower(chain, id, w2.current), w2);
    }
  }

  lemma {:induction false} VisitsComplete(stages: Stages, chain: seq<int>, all: seq<int>, k: nat, done: set<int>,
                                          w: World)
    requires InChainOrder(chain, all) && k <= |all|
    requires forall j | 0 <= j < k :: all[j] in w.current
    ensures var (w', end) := Visits(stages, chain, all[k..], done, w);
            end.Completed? ==> forall j | 0 <= j < |all| :: all[j] in w'.current
    decreases |all| - k
  {
    if k < |all| {
      VisitKeeps(stages, chain, all[k], done, w);
      assert all[k..][0] == all[k] && all[k..][1..] == all[k + 1..];
      var (w', end) := Visit(stages, chain, all[k], done, w);
      if end.Completed? {
        forall j | 0 <= j < k
          ensures all[j] in w'.current
        {
          var id := all[j];
          assert id in Prior(chain, all[k]);
        }
        VisitsComplete(stages, chain, all, k + 1, done, w');
      }
    }
  }

  /** Whatever planning revokes and whatever gates and builders answer: a pass that returns normally leaves every
      requested layer current.  No order of ids is assumed. */
  lemma CompletedPassIsSound(stages: Stages, chain: seq<int>, ids: seq<int>, done: set<int>, w: World)
    requires InChainOrder(chain, ids) && Pass(stages, chain, ids, done, w).1.Completed?
    ensures forall id | id in ids :: id in Pass(stages, chain, ids, done, w).0.current
  {
    assert ids[0..] == ids;
    VisitsComplete(stages, chain, ids, 0, done, w.Gated());
  }

  // ---- no builder is refused on a validated plan ---------------------------------------------------------

  lemma {:induction false} ReopenedLowerOf(chain: seq<int>, id: int, current: set<int>)
    ensures forall l :: l in ReopenedLower(chain, id, current) <==> l in chain && l < id && l !in current
  {
    if chain != [] {
      ReopenedLowerOf(chain[1..], id, current);
      assert chain == [chain[0]] + chain[1..];
    }
  }

  lemma {:induction false} ReopenedIncreases(chain: seq<int>, id: int, current: set<int>)
    requires Increasing(chain)
    ensures Increasing(ReopenedLower(chain, id, current))
  {
    if chain != [] {
      ReopenedIncreases(chain[1..], id, current);
      ReopenedLowerOf(chain[1..], id, current);
      var rest := ReopenedLower(chain[1..], id, current);
      forall i | 0 <= i < |rest|
        ensures chain[0] < rest[i]
      {
        assert rest[i] in rest;
        var j :| 0 <= j < |chain[1..]| && chain[1..][j] == rest[i];
      }
    }
  }

  ghost predicate AllReady(starts: seq<BuildStart>) {
    forall s | s in starts :: Ready(s)
  }

  lemma PriorIsLower(chain: seq<int>, layer: int, l: int)
    requires Increasing(chain) && layer in chain && l in Prior(chain, layer)
    ensures l in chain && l < layer
  {
    var prior := Prior(chain, layer);
    var i :| 0 <= i < |prior| && prior[i] == l;
    assert chain[..|prior|][i] == chain[i];
  }

  /** Rebuilding from the k-th reopened layer on, the earlier ones being current again. */
  lemma {:induction false} RebuiltStartsReady(stages: Stages, chain: seq<int>, id: int, was: set<int>, k: nat, w: World)
    requires Increasing(chain) && k <= |ReopenedLower(chain, id, was)|
    requires forall j | 0 <= j < k :: ReopenedLower(chain, id, was)[j] in w.current
    requires was <= w.current && AllReady(w.starts)
    ensures AllReady(Rebuilt(stages, chain, ReopenedLower(chain, id, was)[k..], w).0.starts)
    decreases |ReopenedLower(chain, id, was)| - k
  {
    var lower := ReopenedLower(chain, id, was);
    if k < |lower| {
      var x := lower[k];
      ReopenedLowerOf(chain, id, was);
      ReopenedIncreases(chain, id, was);
      assert x in lower;
      forall l | l in Prior(chain, x)
        ensures l in w.current
      {
        PriorIsLower(chain, x, l);
        if l !in was {
          assert l in lower;
          var j :| 0 <= j < |lower| && lower[j] == l;
        }
      }
      assert Ready(w.Start(chain, x));
      assert lower[k..][0] == x && lower[k..][1..] == lower[k + 1..];
      if w.Publishes(stages, chain, x) {
        RebuiltStartsReady(stages, chain, id, was, k + 1, w.Built(stages, chain, x));
      }
    }
  }

  lemma VisitStartsReady(stages: Stages, chain: seq<int>, id: int, done: set<int>, w: World)
    requires Increasing(chain) && id in chain && AllReady(w.starts)
    ensures AllReady(Visit(stages, chain, id, done, w).0.starts)
  {
    var asked := id in done && id in w.current;
    var w0 := if asked then w.Gated() else w;
    if !(asked && stages.clean(w.gated)) {
      var w2 := w0.Planned(stages).Gated();
      var lower := ReopenedLower(chain, id, w2.current);
      ReopenedLowerOf(chain, id, w2.current);
      RebuiltGrows(stages, chain, lower, w2);
      assert lower[0..] == lower;
      RebuiltStartsReady(stages, chain, id, w2.current, 0, w2);
      var (w3, ok) := Rebuilt(stages, chain, lower, w2);
      if ok {
        forall l | l in Prior(chain, id)
          ensures l in w3.current
        {
          PriorIsLower(chain, id, l);
        }
      }
    }
  }

  lemma {:induction false} VisitsStartReady(stages: Stages, chain: seq<int>, ids: seq<int>, done: set<int>, w: World)
    requires Increasing(chain) && AllReady(w.starts) && forall id | id in ids :: id in chain
    ensures AllReady(Visits(stages, chain, ids, done, w).0.starts)
  {
    if ids != [] {
      VisitStartsReady(stages, chain, ids[0], done, w);
      var (w', end) := Visit(stages, chain, ids[0], done, w);
      if end.Completed? { VisitsStartReady(stages, chain, ids[1..], done, w'); }
    }
  }

  /** On the chain of a validated plan every builder starts with every lower layer of the DAG current, though each
      planning step may revoke any of them: no builder is ever refused. */
  lemma ValidatedPlanNeverRefuses(rows: seq<LayerRow>, start: int, upto: Option<int>, stages: Stages, done: set<int>,
                                  w: World)
    requires ValidPlan(rows) && AllReady(w.starts)
    ensures AllReady(Pass(stages, Ids(rows), InRange(Ids(rows), start, upto), done, w).0.starts)
  {
    ValidPlanFacts(rows);
    InRangeMembers(Ids(rows), start, upto);
    VisitsStartReady(stages, Ids(rows), InRange(Ids(rows), start, upto), done, w.Gated());
  }

  // ---- why a pass ends ---------------------------------------------------------------------------------

  /** Some planning step, gate or builder since `w` was the last of its kind and answered no. */
  ghost predicate JustStopped(stages: Stages, w: World, w': World, end: PassEnd) {
    && w.planned <= w'.planned && w.gated <= w'.gated && w.built <= w'.built && w.starts <= w'.starts
    && (end == Stopped(false) ==> w.planned < w'.planned && !stages.plans(w'.planned - 1))
    && (end == Stopped(true) ==>
          || (w.gated < w'.gated && !stages.gateClears(w'.gated - 1))
          || (w.built < w'.built && !stages.publishes(w'.built - 1))
          || (|w.starts| < |w'.starts| && !Ready(w'.starts[|w'.starts| - 1])))
  }

  lemma {:induction false} RebuiltStops(stages: Stages, chain: seq<int>, lower: seq<int>, w: World)
    ensures var (w', ok) := Rebuilt(stages, chain, lower, w);
            && JustStopped(stages, w, w', if ok then Completed else Stopped(true))
            && w'.planned == w.planned && w'.gated == w.gated
  {
    if lower != [] && w.Publishes(stages, chain, lower[0]) {
      RebuiltStops(stages, chain, lower[1..], w.Built(stages, chain, lower[0]));
    }
  }

  lemma VisitStops(stages: Stages, chain: seq<int>, id: int, done: set<int>, w: World)
    ensures var (w', end) := Visit(stages, chain, id, done, w); JustStopped(stages, w, w', end)
  {
    var w0 := if id in done && id in w.current then w.Gated() else w;
    var w2 := w0.Planned(stages).Gated();
    RebuiltStops(stages, chain, ReopenedLower(chain, id, w2.current), w2);
  }

  lemma {:induction false} VisitsStop(stages: Stages, chain: seq<int>, ids: seq<int>, done: set<int>, w: World)
    ensures var (w', end) := Visits(stages, chain, ids, done, w); JustStopped(stages, w, w', end)
  {
    if ids != [] {
      VisitStops(stages, chain, ids[0], done, w);
      var (w', end) := Visit(stages, chain, ids[0], done, w);
      if end.Completed? { VisitsStop(stages, chain, ids[1..], done, w'); }
    }
  }

  /** A pass stops only because of its last answer: unreachable owners before anything else, a planning step that failed
      - that stop is not given to the controller -, a gate that does not clear, or a builder that refuses or fails. */
  lemma StopIsJustified(stages: Stages, chain: seq<int>, ids: seq<int>, done: set<int>, w: World)
    ensures var (w', end) := Pass(stages, chain, ids, done, w);
            if !stages.ownersReachable(w.gated) then end == Stopped(true) && w' == w.Gated()
            else JustStopped(stages, w.Gated(), w', end)
  {
    VisitsStop(stages, chain, ids, done, w.Gated());
  }

  /** On a validated plan a pass completes when the owners are reachable and every stage it calls succeeds. */
  lemma PassCompletes(rows: seq<LayerRow>, start: int, upto: Option<int>, stages: Stages, done: set<int>, w: World)
    requires ValidPlan(rows) && AllReady(w.starts) && stages.ownersReachable(w.gated)
    requires forall n: nat :: stages.plans(n) && stages.gateClears(n) && stages.publishes(n)
    ensures Pass(stages, Ids(rows), InRange(Ids(rows), start, upto), done, w).1.Completed?
  {
    var (w', end) := Pass(stages, Ids(rows), InRange(Ids(rows), start, upto), done, w);
    StopIsJustified(stages, Ids(rows), InRange(Ids(rows), start, upto), done, w);
    ValidatedPlanNeverRefuses(rows, start, upto, stages, done, w);
    if |w.starts| < |w'.starts| { assert w'.starts[|w'.starts| - 1] in w'.starts; }
  }

  lemma {:induction false} CurrentVisitsAreIdle(stages: Stages, chain: seq<int>, ids: seq<int>, done: set<int>,
                                                w: World)
    requires forall id | id in ids :: id in done && id in w.current
    requires forall n: nat :: stages.clean(n)
    ensures Visits(stages, chain, ids, done, w) == (w.(gated := w.gated + |ids|), Completed)
  {
    if ids != [] {
      assert ids[0] in ids && forall id | id in ids[1..] :: id in ids;
      CurrentVisitsAreIdle(stages, chain, ids[1..], done, w.Gated());
    }
  }

  /** A pass over layers that are all done, current and clean asks its gates and does nothing else: no layer is planned,
      built or revoked. */
  lemma CurrentPassIsIdle(stages: Stages, chain: seq<int>, ids: seq<int>, done: set<int>, w: World)
    requires forall id | id in ids :: id in done && id in w.current
    requires stages.ownersReachable(w.gated) && forall n: nat :: stages.clean(n)
    ensures Pass(stages, chain, ids, done, w) == (w.(gated := w.gated + |ids| + 1), Completed)
  {
    CurrentVisitsAreIdle(stages, chain, ids, done, w.Gated());
  }

  lemma {:induction false} DirtyVisitsPlan(stages: Stages, chain: seq<int>, ids: seq<int>, done: set<int>, w: World)
    requires forall n: nat :: !stages.clean(n)
    ensures var (w', end) := Visits(stages, chain, ids, done, w);
            end.Completed? ==> w'.planned == w.planned + |ids|
  {
    if ids != [] {
      var (w', end) := Visit(stages, chain, ids[0], done, w);
      var w0 := if ids[0] in done && ids[0] in w.current then w.Gated() else w;
      var w2 := w0.Planned(stages).Gated();
      RebuiltStops(stages, chain, ReopenedLower(chain, ids[0], w2.current), w2);
      if end.Completed? { DirtyVisitsPlan(stages, chain, ids[1..], done, w'); }
    }
  }

  /** A layer is skipped only when its gate finds it clean: where none is, a completed pass has planned every requested
      layer again. */
  lemma DirtyPassPlans(stages: Stages, chain: seq<int>, ids: seq<int>, done: set<int>, w: World)
    requires forall n: nat :: !stages.clean(n)
    ensures var (w', end) := Pass(stages, chain, ids, done, w);
            end.Completed? ==> w'.planned == w.planned + |ids|
  {
    if stages.ownersReachable(w.gated) { DirtyVisitsPlan(stages, chain, ids, done, w.Gated()); }
  }

  // ---- where publications come from --------------------------------------------------------------------

  /** The builder of the k-th start found its prior work accepted and published its layer. */
  predicate PublishedBy(stages: Stages, s: BuildStart, call: nat, l: int) {
    s.layer == l && Ready(s) && stages.publishes(call)
  }

  /** Layer `l` was published by the builder of the k-th start made between `w` and `w'`. */
  predicate PublishedSince(stages: Stages, w: World, w': World, l: int, k: nat) {
    |w.starts| + k < |w'.starts| && PublishedBy(stages, w'.starts[|w.starts| + k], w.built + k, l)
  }

  /** Every publication that is new since `w` is that of a builder that worked and published it. */
  ghost predicate NewlyPublished(stages: Stages, w: World, w': World) {
    && w.starts <= w'.starts && w'.built - w.built == |w'.starts| - |w.starts|
    && forall l | l in w'.current && l !in w.current :: exists k: nat :: PublishedSince(stages, w, w', l, k)
  }

  lemma NewlyPublishedJoin(stages: Stages, u: World, v: World, w: World)
    requires NewlyPublished(stages, u, v) && NewlyPublished(stages, v, w)
    ensures NewlyPublished(stages, u, w)
  {
    forall l | l in w.current && l !in u.current
      ensures exists k: nat :: PublishedSince(stages, u, w, l, k)
    {
      if l in v.current {
        var k: nat :| PublishedSince(stages, u, v, l, k);
        assert w.starts[|u.starts| + k] == v.starts[|u.starts| + k];
        assert PublishedSince(stages, u, w, l, k);
      } else {
        var k: nat :| PublishedSince(stages, v, w, l, k);
        var m := k + |v.starts| - |u.starts|;
        assert |u.starts| + m == |v.starts| + k && u.built + m == v.built + k;
        assert PublishedSince(stages, u, w, l, m);
      }
    }
  }

  lemma BuiltPublishes(stages: Stages, chain: seq<int>, layer: int, w: World)
    ensures NewlyPublished(stages, w, w.Built(stages, chain, layer))
  {
    var w' := w.Built(stages, chain, layer);
    if w.Publishes(stages, chain, layer) {
      assert PublishedSince(stages, w, w', layer, 0);
    }
  }

  lemma {:induction false} RebuiltPublishes(stages: Stages, chain: seq<int>, lower: seq<int>, w: World)
    ensures NewlyPublished(stages, w, Rebuilt(stages, chain, lower, w).0)
  {
    if lower != [] {
      var w' := w.Built(stages, chain, lower[0]);
      BuiltPublishes(stages, chain, lower[0], w);
      if w.Publishes(stages, chain, lower[0]) {
        RebuiltPublishes(stages, chain, lower[1..], w');
        NewlyPublishedJoin(stages, w, w', Rebuilt(stages, chain, lower[1..], w').0);
      }
    }
  }

  lemma VisitPublishes(stages: Stages, chain: seq<int>, id: int, done: set<int>, w: World)
    ensures NewlyPublished(stages, w, Visit(stages, chain, id, done, w).0)
  {
    var w0 := if id in done && id in w.current then w.Gated() else w;
    var w2 := w0.Planned(stages).Gated();
    var lower := ReopenedLower(chain, id, w2.current);
    var w3 := Rebuilt(stages, chain, lower, w2).0;
    RebuiltPublishes(stages, chain, lower, w2);
    assert NewlyPublished(stages, w, w2);
    NewlyPublishedJoin(stages, w, w2, w3);
    BuiltPublishes(stages, chain, id, w3);
    NewlyPublishedJoin(stages, w, w3, w3.Built(stages, chain, id));
  }

  lemma {:induction false} VisitsPublish(stages: Stages, chain: seq<int>, ids: seq<int>, done: set<int>, w: World)
    ensures NewlyPublished(stages, w, Visits(stages, chain, ids, done, w).0)
  {
    if ids != [] {
      var (w', end) := Visit(stages, chain, ids[0], done, w);
      VisitPublishes(stages, chain, ids[0], done, w);
      if end.Completed? {
        VisitsPublish(stages, chain, ids[1..], done, w');
        NewlyPublishedJoin(stages, w, w', Visits(stages, chain, ids[1..], done, w').0);
      }
    }
  }

  /** Whatever a pass leaves current and did not find current was published by one of its builders, on accepted prior
      work. */
  lemma PassPublishes(stages: Stages, chain: seq<int>, ids: seq<int>, done: set<int>, w: World)
    ensures NewlyPublished(stages, w, Pass(stages, chain, ids, done, w).0)
  {
    VisitsPublish(stages, chain, ids, done, w.Gated());
    assert NewlyPublished(stages, w, w.Gated());
    NewlyPublishedJoin(stages, w, w.Gated(), Visits(stages, chain, ids, done, w.Gated()).0);
  }

  // ---- what a pass builds ------------------------------------------------------------------------------

  /** From the start numbered `from` on, builders start for requested layers, and for others of the chain only when they
      are not current. */
  ghost predicate StartsNeeded(chain: seq<int>, ids: seq<int>, starts: seq<BuildStart>, from: nat) {
    forall k | from <= k < |starts| ::
      && starts[k].prior == Prior(chain, starts[k].layer)
      && (starts[k].layer in ids || (starts[k].layer in chain && starts[k].layer !in starts[k].current))
  }

  lemma {:induction false} RebuiltNeeded(stages: Stages, chain: seq<int>, ids: seq<int>, lower: seq<int>, w: World)
    requires Increasing(lower) && forall l | l in lower :: l in chain && l !in w.current
    ensures StartsNeeded(chain, ids, Rebuilt(stages, chain, lower, w).0.starts, |w.starts|)
    ensures w.starts <= Rebuilt(stages, chain, lower, w).0.starts
  {
    if lower != [] && w.Publishes(stages, chain, lower[0]) {
      assert lower[0] in lower;
      forall l | l in lower[1..]
        ensures l in lower && l != lower[0]
      {
        var i :| 0 <= i < |lower[1..]| && lower[1..][i] == l;
        assert lower[i + 1] == l;
      }
      RebuiltNeeded(stages, chain, ids, lower[1..], w.Built(stages, chain, lower[0]));
    }
  }

  lemma VisitNeeded(stages: Stages, chain: seq<int>, ids: seq<int>, id: int, done: set<int>, w: World)
    requires Increasing(chain) && id in ids
    ensures StartsNeeded(chain, ids, Visit(stages, chain, id, done, w).0.starts, |w.starts|)
    ensures w.starts <= Visit(stages, chain, id, done, w).0.starts
  {
    var w0 := if id in done && id in w.current then w.Gated() else w;
    var w2 := w0.Planned(stages).Gated();
    var lower := ReopenedLower(chain, id, w2.current);
    ReopenedLowerOf(chain, id, w2.current);
    ReopenedIncreases(chain, id, w2.current);
    RebuiltNeeded(stages, chain, ids, lower, w2);
  }

  lemma {:induction false} VisitsNeeded(stages: Stages, chain: seq<int>, ids: seq<int>, k: nat, done: set<int>,
                                        w: World)
    requires Increasing(chain) && k <= |ids|
    ensures StartsNeeded(chain, ids, Visits(stages, chain, ids[k..], done, w).0.starts, |w.starts|)
    ensures w.starts <= Visits(stages, chain, ids[k..], done, w).0.starts
    decreases |ids| - k
  {
    if k < |ids| {
      assert ids[k..][0] == ids[k] && ids[k..][1..] == ids[k + 1..];
      VisitNeeded(stages, chain, ids, ids[k], done, w);
      var (w', end) := Visit(stages, chain, ids[k], done, w);
      if end.Completed? { VisitsNeeded(stages, chain, ids, k + 1, done, w'); }
    }
  }

  /** A pass over a validated plan builds requested layers, and of the others only those that are not current. */
  lemma PassBuildsWhatIsNeeded(stages: Stages, chain: seq<int>, ids: seq<int>, done: set<int>, w: World)
    requires Increasing(chain)
    ensures StartsNeeded(chain, ids, Pass(stages, chain, ids, done, w).0.starts, |w.starts|)
  {
    assert ids[0..] == ids;
    VisitsNeeded(stages, chain, ids, 0, done, w.Gated());
  }

  // ---- the driver's pass ------------------------------------------------------------------------------

  class Publications {
    var current: set<int>
    var planned: nat
    var gated: nat
    var built: nat
    ghost var starts: seq<BuildStart>

    constructor (current: set<int>)
      ensures State() == World(current, 0, 0, 0, [])
    {
      this.current, planned, gated, built, starts := current, 0, 0, 0, [];
    }

    ghost function State(): World
      reads this
    {
      World(current, planned, gated, built, starts)
    }

    /** One planning step: it may revoke any publications. */
    method Plan(stages: Stages) returns (ok: bool)
      modifies this
      ensures State() == old(State()).Planned(stages) && ok == stages.plans(old(planned))
    {
      ok := stages.plans(planned);
      current := current - stages.revokes(planned);
      planned := planned + 1;
    }

    /** One gate evaluation, deciding by the given answers. */
    method Gate(answer: nat -> bool) returns (ok: bool)
      modifies this
      ensures State() == old(State()).Gated() && ok == answer(old(gated))
    {
      ok := answer(gated);
      gated := gated + 1;
    }

    /** One builder.  It walks the chain before its layer and refuses unless each layer is current; on success
        its layer, and only that, becomes current. */
    method Build(stages: Stages, chain: seq<int>, layer: int) returns (ok: bool)
      modifies this
      ensures State() == old(State()).Built(stages, chain, layer) && ok == old(State()).Publishes(stages, chain, layer)
    {
      starts := starts + [BuildStart(layer, Prior(chain, layer), current)];
      var prior := Prior(chain, layer);
      var accepted := true;
      for i := 0 to |prior|
        invariant accepted <==> forall j | 0 <= j < i :: prior[j] in current
      {
        if prior[i] !in current { accepted := false; }
      }
      ReadyByIndex(BuildStart(layer, prior, current));
      ok := accepted && stages.publishes(built);
      built := built + 1;
      if ok { current := current + {layer}; }
    }
  }

  /** Build the reopened lower layers of `id`, in chain order. */
  method RebuildLower(pubs: Publications, stages: Stages, chain: seq<int>, id: int) returns (ok: bool)
    modifies pubs
    ensures (pubs.State(), ok) == Rebuilt(stages, chain, ReopenedLower(chain, id, old(pubs.current)), old(pubs.State()))
  {
    var reopened := ReopenedLower(chain, id, pubs.current);
    ghost var all := Rebuilt(stages, chain, reopened, pubs.State());
    var k := 0;
    assert reopened[0..] == reopened;
    while k < |reopened|
      invariant 0 <= k <= |reopened|
      invariant Rebuilt(stages, chain, reopened[k..], pubs.State()) == all
    {
      assert reopened[k..][0] == reopened[k] && reopened[k..][1..] == reopened[k + 1..];
      var built := pubs.Build(stages, chain, reopened[k]);
      if !built { return false; }
      k := k + 1;
    }
    ok := true;
  }

  /** One pass over the requested layers. */
  method DriveLayers(pubs: Publications, stages: Stages, chain: seq<int>, ids: seq<int>,
                     done: set<int>) returns (end: PassEnd)
    modifies pubs
    ensures (pubs.State(), end) == Pass(stages, chain, ids, done, old(pubs.State()))
  {
    var reachable := pubs.Gate(stages.ownersReachable);
    if !reachable { return Stopped(true); }
    ghost var all := Visits(stages, chain, ids, done, pubs.State());
    var k := 0;
    assert ids[0..] == ids;
    while k < |ids|
      invariant 0 <= k <= |ids|
      invariant Visits(stages, chain, ids[k..], done, pubs.State()) == all
    {
      var id := ids[k];
      assert ids[k..][0] == id && ids[k..][1..] == ids[k + 1..];
      var skip := false;
      if id in done && id in pubs.current {
        skip := pubs.Gate(stages.clean);
      }
      if !skip {
        var planned := pubs.Plan(stages);
        if !planned { return Stopped(false); }
        var clears := pubs.Gate(stages.gateClears);
        if !clears { return Stopped(true); }
        var lower := RebuildLower(pubs, stages, chain, id);
        if !lower { return Stopped(true); }
        var built := pubs.Build(stages, chain, id);
        if !built { return Stopped(true); }
      }
      k := k + 1;
    }
    end := Completed;
  }
}
