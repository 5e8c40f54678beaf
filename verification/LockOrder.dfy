/**
  The locks a publication takes, in rank order: its output's lock, the selection lock, the unit-state locks
  in sorted path order, the ledger lock.  Any set of such publishers, in any modes, can always
  make progress.
 */
module LockOrder {
  import opened Sorting

  datatype Lock =
    | Output(path: int)
    | Selection
    | UnitState(path: int) // paths in the order the source sorts them
    | Ledger

  predicate Before(a: Lock, b: Lock) {
    match (a, b)
    case (Output(x), Output(y)) => x < y
    case (Output(_), _) => true
    case (Selection, UnitState(_)) => true
    case (Selection, Ledger) => true
    case (UnitState(x), UnitState(y)) => x < y
    case (UnitState(_), Ledger) => true
    case _ => false
  }

  predicate Ranked(plan: seq<Lock>) {
    forall i, j | 0 <= i < j < |plan| :: Before(plan[i], plan[j])
  }

  // ---- the plan of one publisher ---------------------------------------------------------------

  function UnitLocks(paths: seq<int>): seq<Lock> {
    seq(|paths|, i requires 0 <= i < |paths| => UnitState(paths[i]))
  }

  /** The locks in the order the nested contexts take them. */
  function PublisherPlan(output: int, layerPaths: seq<int>): seq<Lock> {
    [Output(output), Selection] + UnitLocks(Sorted(layerPaths)) + [Ledger]
  }

  lemma {:induction false} IncreasingLength(xs: seq<int>)
    requires forall i, j | 0 <= i < j < |xs| :: xs[i] < xs[j]
    ensures |set x | x in xs| == |xs|
  {
    if xs != [] {
      var init, last := xs[..|xs| - 1], xs[|xs| - 1];
      IncreasingLength(init);
      assert (set x | x in xs) == (set x | x in init) + {last};
    }
  }

  lemma UnitLocked(paths: seq<int>, y: int)
    ensures UnitState(y) in UnitLocks(paths) <==> y in paths
  {
    if y in paths {
      var k :| 0 <= k < |paths| && paths[k] == y;
      assert UnitLocks(paths)[k] == UnitState(y);
    }
  }

  /** A lock of a plan is one of the three fixed ones or that of a path. */
  lemma PlanHolds(output: int, layerPaths: seq<int>, l: Lock)
    ensures l in PublisherPlan(output, layerPaths)
            <==> if l.UnitState? then l.path in Sorted(layerPaths)
                 else l == Output(output) || l == Selection || l == Ledger
  {
    var front, units, rear := [Output(output), Selection], UnitLocks(Sorted(layerPaths)), [Ledger];
    assert l in front + units + rear <==> l in front || l in units || l in rear;
    if l.UnitState? { UnitLocked(Sorted(layerPaths), l.path); }
  }

  lemma PlanRanked(output: int, layerPaths: seq<int>)
    requires Increasing(Sorted(layerPaths))
    ensures Ranked(PublisherPlan(output, layerPaths))
  {
  }

  /** The plan takes exactly the locks of the output, the selection, each layer path and the ledger, each once, in rank
      order. */
  lemma PublisherPlanRanked(output: int, layerPaths: seq<int>)
    ensures Ranked(PublisherPlan(output, layerPaths))
    ensures forall l: Lock :: l in PublisherPlan(output, layerPaths)
                              <==> if l.UnitState? then l.path in layerPaths
                                   else l == Output(output) || l == Selection || l == Ledger
    ensures |PublisherPlan(output, layerPaths)| == |set y | y in layerPaths| + 3
  {
    SortedIncreasing(layerPaths);
    PlanRanked(output, layerPaths);
    forall l: Lock
      ensures l in PublisherPlan(output, layerPaths)
              <==> if l.UnitState? then l.path in layerPaths
                   else l == Output(output) || l == Selection || l == Ledger
    {
      PlanHolds(output, layerPaths, l);
    }
    PlanLength(layerPaths);
  }

  lemma PlanLength(layerPaths: seq<int>)
    ensures |Sorted(layerPaths)| == |set y | y in layerPaths|
  {
    SortedIncreasing(layerPaths);
    var sorted := Sorted(layerPaths);
    IncreasingLength(sorted);
    assert forall y :: y in sorted <==> y in layerPaths;
    assert (set y | y in sorted) == (set y | y in layerPaths);
  }

  // ---- many publishers ------------------------------------------------------------------------

  /** A publisher holds the first `held` locks of its plan; it releases all of them together. */
  datatype Publisher = Publisher(plan: seq<Lock>, exclusive: seq<bool>, held: nat, finished: bool)

  type System = seq<Publisher>

  ghost predicate WellFormed(s: System) {
    forall i | 0 <= i < |s| ::
      && Ranked(s[i].plan) && |s[i].exclusive| == |s[i].plan| && s[i].held <= |s[i].plan|
      && (s[i].finished ==> s[i].held == 0)
  }

  predicate Holds(p: Publisher, l: Lock) {
    exists k | 0 <= k < p.held && k < |p.plan| :: p.plan[k] == l
  }

  predicate HoldsExclusively(p: Publisher, l: Lock) {
    exists k | 0 <= k < p.held && k < |p.plan| && k < |p.exclusive| :: p.plan[k] == l && p.exclusive[k]
  }

  predicate Waiting(p: Publisher) {
    !p.finished && p.held < |p.plan| && p.held < |p.exclusive|
  }

  /** Publisher `q` holds the lock `p` wants next, in a conflicting mode. */
  predicate Blocks(q: Publisher, p: Publisher)
    requires Waiting(p)
  {
    if p.exclusive[p.held] then Holds(q, p.plan[p.held]) else HoldsExclusively(q, p.plan[p.held])
  }

  /** Publisher `i` may take its next lock: no other holder conflicts with the mode it asks for. */
  ghost predicate CanTake(s: System, i: nat)
    requires i < |s|
  {
    Waiting(s[i]) && forall j | 0 <= j < |s| && j != i :: !Blocks(s[j], s[i])
  }

  ghost predicate CanFinish(s: System, i: nat)
    requires i < |s|
  {
    !s[i].finished && s[i].held == |s[i].plan|
  }

  ghost predicate Step(s: System, t: System) {
    exists i | 0 <= i < |s| ::
      || (CanTake(s, i) && t == s[i := s[i].(held := s[i].held + 1)])
      || (CanFinish(s, i) && t == s[i := s[i].(held := 0, finished := true)])
  }

  lemma StepsKeepOrder(s: System, t: System)
    requires WellFormed(s) && Step(s, t)
    ensures WellFormed(t)
  {
  }

  ghost predicate Stuck(s: System, i: nat)
    requires i < |s|
  {
    !s[i].finished && !CanTake(s, i) && !CanFinish(s, i)
  }

  /** What a stuck publisher waits for is held by an unfinished publisher that waits, if at all, for
      something of higher rank. */
  lemma StuckWaitsHigher(s: System, i: nat) returns (j: nat)
    requires WellFormed(s) && i < |s| && Stuck(s, i)
    ensures j < |s| && Waiting(s[i]) && !s[j].finished && s[j].held > 0
    ensures Waiting(s[j]) ==> Before(s[i].plan[s[i].held], s[j].plan[s[j].held])
  {
    j :| 0 <= j < |s| && j != i && Blocks(s[j], s[i]);
    var k :| 0 <= k < s[j].held && k < |s[j].plan| && s[j].plan[k] == s[i].plan[s[i].held];
  }

  lemma BeforeTransitive(a: Lock, b: Lock, c: Lock)
    requires Before(a, b) && Before(b, c)
    ensures Before(a, c)
  {
  }

  /** `p` waits for no less a lock than `q` does. */
  predicate NoLower(p: Publisher, q: Publisher)
    requires Waiting(p) && Waiting(q)
  {
    !Before(p.plan[p.held], q.plan[q.held])
  }

  lemma HigherIsNoLower(p: Publisher, q: Publisher, r: Publisher)
    requires Waiting(p) && Waiting(q) && Waiting(r)
    requires NoLower(p, r) && !NoLower(p, q)
    ensures NoLower(q, r)
  {
    if !NoLower(q, r) {
      BeforeTransitive(p.plan[p.held], q.plan[q.held], r.plan[r.held]);
    }
  }

  /** Among publishers that wait, one waits for a lock of greatest rank. */
  lemma {:induction false} GreatestWaiter(s: System, some: nat) returns (g: nat)
    requires some < |s| && Waiting(s[some])
    ensures g < |s| && Waiting(s[g])
    ensures forall i | 0 <= i < |s| && Waiting(s[i]) :: NoLower(s[g], s[i])
  {
    var init, last := s[..|s| - 1], s[|s| - 1];
    if other :| 0 <= other < |init| && Waiting(init[other]) {
      g := GreatestWaiter(init, other);
      if Waiting(last) && !NoLower(s[g], last) {
        forall i | 0 <= i < |init| && Waiting(init[i])
          ensures NoLower(last, init[i])
        {
          HigherIsNoLower(s[g], last, init[i]);
        }
        g := |s| - 1;
      }
      assert forall i | 0 <= i < |init| :: s[i] == init[i];
    } else {
      g := some;
      assert forall i | 0 <= i < |init| :: s[i] == init[i];
    }
  }

  /** No deadlock: while some publisher is unfinished, some publisher can step. */
  lemma SomePublisherCanStep(s: System, some: nat)
    requires WellFormed(s) && some < |s| && !s[some].finished
    ensures exists i | 0 <= i < |s| :: CanTake(s, i) || CanFinish(s, i)
  {
    if forall i | 0 <= i < |s| && !s[i].finished :: Stuck(s, i) {
      var _ := StuckWaitsHigher(s, some);
      var g := GreatestWaiter(s, some);
      var j := StuckWaitsHigher(s, g);
      var _ := StuckWaitsHigher(s, j);
      assert false;
    }
  }

  ghost predicate Run(s: System, steps: seq<System>) {
    && steps != [] && steps[0] == s
    && forall i | 0 < i < |steps| :: Step(steps[i - 1], steps[i])
  }

  /** Every reachable state of publishers that start with nothing held can make progress. */
  lemma {:induction false} PublishersNeverDeadlock(s: System, steps: seq<System>, some: nat)
    requires WellFormed(s) && Run(s, steps)
    requires some < |steps[|steps| - 1]| && !steps[|steps| - 1][some].finished
    ensures var last := steps[|steps| - 1];
            exists i | 0 <= i < |last| :: CanTake(last, i) || CanFinish(last, i)
  {
    ReachableWellFormed(s, steps, |steps| - 1);
    SomePublisherCanStep(steps[|steps| - 1], some);
  }

  lemma {:induction false} ReachableWellFormed(s: System, steps: seq<System>, k: nat)
    requires WellFormed(s) && Run(s, steps) && k < |steps|
    ensures WellFormed(steps[k])
  {
    if k > 0 {
      ReachableWellFormed(s, steps, k - 1);
      StepsKeepOrder(steps[k - 1], steps[k]);
    }
  }

  /** Steps a publisher still has to make. */
  function Remaining(s: System): nat
    decreases |s|
  {
    if s == [] then 0
    else Remaining(s[1..])
         + (if s[0].finished then 0 else 1 + if s[0].held < |s[0].plan| then |s[0].plan| - s[0].held else 0)
  }

  lemma {:induction false} RemainingFalls(s: System, i: nat, p: Publisher)
    requires i < |s| && !s[i].finished
    requires || (s[i].held >= |s[i].plan| && p == s[i].(held := 0, finished := true))
             || (s[i].held < |s[i].plan| && p == s[i].(held := s[i].held + 1))
    ensures Remaining(s[i := p]) == Remaining(s) - 1
    decreases |s|
  {
    if i == 0 {
      assert s[0 := p][1..] == s[1..];
    } else {
      RemainingFalls(s[1..], i - 1, p);
      assert s[i := p][1..] == s[1..][i - 1 := p];
    }
  }

  /** Every run is finite: each step is one of those that remain. */
  lemma {:induction false} RunsAreBounded(s: System, steps: seq<System>)
    requires Run(s, steps)
    ensures |steps| - 1 + Remaining(steps[|steps| - 1]) == Remaining(s)
    decreases |steps|
  {
    if |steps| > 1 {
      var init := steps[..|steps| - 1];
      var from, to := steps[|steps| - 2], steps[|steps| - 1];
      RunsAreBounded(s, init);
      assert Step(from, to);
      var i :| 0 <= i < |from| &&
        (|| (CanTake(from, i) && to == from[i := from[i].(held := from[i].held + 1)])
         || (CanFinish(from, i) && to == from[i := from[i].(held := 0, finished := true)]));
      RemainingFalls(from, i, to[i]);
    }
  }

  // ---- mutual exclusion ----------------------------------------------------------------------------

  /** Two publishers hold no common lock that either holds exclusively. */
  ghost predicate Compatible(p: Publisher, q: Publisher) {
    forall k, m | 0 <= k < p.held && k < |p.plan| && 0 <= m < q.held && m < |q.plan| && p.plan[k] == q.plan[m] ::
      && (k < |p.exclusive| ==> !p.exclusive[k])
      && (m < |q.exclusive| ==> !q.exclusive[m])
  }

  ghost predicate Exclusive(s: System) {
    forall i, j | 0 <= i < |s| && 0 <= j < |s| && i != j :: Compatible(s[i], s[j])
  }

  lemma UnblockedIsCompatible(p: Publisher, q: Publisher)
    requires Compatible(p, q) && Waiting(p) && !Blocks(q, p)
    ensures Compatible(p.(held := p.held + 1), q) && Compatible(q, p.(held := p.held + 1))
  {
  }

  lemma StepKeepsExclusive(s: System, t: System)
    requires Exclusive(s) && Step(s, t)
    ensures Exclusive(t)
  {
    var i :| 0 <= i < |s| &&
      (|| (CanTake(s, i) && t == s[i := s[i].(held := s[i].held + 1)])
       || (CanFinish(s, i) && t == s[i := s[i].(held := 0, finished := true)]));
    forall j | 0 <= j < |s| && j != i
      ensures Compatible(t[i], t[j]) && Compatible(t[j], t[i])
    {
      assert Compatible(s[i], s[j]);
      if CanTake(s, i) && t[i] == s[i].(held := s[i].held + 1) { UnblockedIsCompatible(s[i], s[j]); }
    }
    forall j, k | 0 <= j < |s| && 0 <= k < |s| && j != k && j != i && k != i
      ensures Compatible(t[j], t[k])
    {
      assert Compatible(s[j], s[k]);
    }
  }

  /** In every reachable state, a lock held exclusively is held by nobody else. */
  lemma {:induction false} LocksExclude(s: System, steps: seq<System>, k: nat)
    requires Exclusive(s) && Run(s, steps) && k < |steps|
    ensures Exclusive(steps[k])
  {
    if k > 0 {
      LocksExclude(s, steps, k - 1);
      StepKeepsExclusive(steps[k - 1], steps[k]);
    }
  }

  /** Only what blocks is waited for: a waiting publisher can take its lock exactly when it would share it with
      nobody, in the modes both ask for. */
  lemma CanTakeIff(s: System, i: nat)
    requires i < |s| && Exclusive(s) && Waiting(s[i])
    ensures CanTake(s, i) <==> Exclusive(s[i := s[i].(held := s[i].held + 1)])
  {
    var t := s[i := s[i].(held := s[i].held + 1)];
    if CanTake(s, i) {
      assert Step(s, t);
      StepKeepsExclusive(s, t);
    } else {
      var j :| 0 <= j < |s| && j != i && Blocks(s[j], s[i]);
      assert t[j] == s[j];
      BlockedIsIncompatible(s[i], s[j]);
      assert !Compatible(t[i], t[j]);
    }
  }

  lemma BlockedIsIncompatible(p: Publisher, q: Publisher)
    requires Waiting(p) && Blocks(q, p)
    ensures !Compatible(p.(held := p.held + 1), q)
  {
    var l := p.plan[p.held];
    var m :| 0 <= m < q.held && m < |q.plan| && q.plan[m] == l
             && (p.exclusive[p.held] || (m < |q.exclusive| && q.exclusive[m]));
    assert p.plan[p.held] == q.plan[m];
  }

  // ---- the publishers of the program ---------------------------------------------------------------

  /** One publication: its output, the unit-state paths of its layers, and the mode of every lock. */
  datatype Job = Job(output: int, layerPaths: seq<int>, exclusively: Lock -> bool)

  function Publish(job: Job): Publisher {
    var plan := PublisherPlan(job.output, job.layerPaths);
    Publisher(plan, seq(|plan|, i requires 0 <= i < |plan| => job.exclusively(plan[i])), 0, false)
  }

  function Started(jobs: seq<Job>): System {
    seq(|jobs|, i requires 0 <= i < |jobs| => Publish(jobs[i]))
  }

  /** The steps of all publications: one for each lock and one to finish. */
  function TotalSteps(jobs: seq<Job>): nat {
    if jobs == [] then 0
    else TotalSteps(jobs[1..]) + |PublisherPlan(jobs[0].output, jobs[0].layerPaths)| + 1
  }

  lemma {:induction false} StartedRemaining(jobs: seq<Job>)
    ensures Remaining(Started(jobs)) == TotalSteps(jobs)
  {
    if jobs != [] {
      StartedRemaining(jobs[1..]);
      assert Started(jobs)[1..] == Started(jobs[1..]);
    }
  }

  lemma {:induction false} NoneRemaining(s: System)
    requires forall i | 0 <= i < |s| :: s[i].finished
    ensures Remaining(s) == 0
  {
    if s != [] { NoneRemaining(s[1..]); }
  }

  lemma StartedWellFormed(jobs: seq<Job>)
    ensures WellFormed(Started(jobs)) && Exclusive(Started(jobs))
  {
    forall i | 0 <= i < |jobs|
      ensures Ranked(Started(jobs)[i].plan)
    {
      PublisherPlanRanked(jobs[i].output, jobs[i].layerPaths);
    }
  }

  /** Any publications, in any modes and any interleaving: no lock is shared against its mode, a run can stop only when
      all are finished, and that is after exactly as many steps as they have locks and ends. */
  lemma PublicationsComplete(jobs: seq<Job>, steps: seq<System>)
    requires Run(Started(jobs), steps)
    ensures |steps| <= 1 + TotalSteps(jobs)
    ensures var last := steps[|steps| - 1];
            && Exclusive(last)
            && ((forall t :: !Step(last, t)) ==>
                  (forall i | 0 <= i < |last| :: last[i].finished) && |steps| == 1 + TotalSteps(jobs))
  {
    var s := Started(jobs);
    RunsAreBounded(s, steps);
    StartedRemaining(jobs);
    StartedWellFormed(jobs);
    LocksExclude(s, steps, |steps| - 1);
    var last := steps[|steps| - 1];
    if some: nat :| some < |last| && !last[some].finished {
      PublishersNeverDeadlock(s, steps, some);
      var i :| 0 <= i < |last| && (CanTake(last, i) || CanFinish(last, i));
      if CanTake(last, i) {
        assert Step(last, last[i := last[i].(held := last[i].held + 1)]);
      } else {
        assert Step(last, last[i := last[i].(held := 0, finished := true)]);
      }
    } else {
      NoneRemaining(last);
    }
  }
}
