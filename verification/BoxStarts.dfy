/**
  Where a search starts, how far it steps and what share of the budget each start gets: the midpoint is central, a
  candidate is the nearest point in bounds, the seeded starts are the usable ones in their order, and the n-th turn
  begins at the n-th of these starts or at the next random one.
 */
module BoxStarts {
  import opened Common
  import opened BoxFeasibility
  import opened BoxSearch

  function Distance(a: real, b: real): real {
    if a < b then b - a else a - b
  }

  // ---- points in bounds -----------------------------------------------------------------------------------

  /** The first point evaluated is in bounds, equally far from both. */
  lemma MidpointIsCentral(p: Space)
    requires |p.lo| == |p.hi| == 6 && forall k | 0 <= k < 6 :: p.lo[k] <= p.hi[k]
    ensures InBounds(p, Midpoint(p))
    ensures forall k | 0 <= k < 6 :: Distance(Midpoint(p)[k], p.lo[k]) == Distance(Midpoint(p)[k], p.hi[k])
  {
  }

  /** No value in bounds is nearer to the wanted one. */
  ghost predicate Nearest(lo: real, hi: real, wanted: real, v: real) {
    lo <= v <= hi && forall other | lo <= other <= hi :: Distance(v, wanted) <= Distance(other, wanted)
  }

  lemma ClampIsNearest(lo: real, hi: real, wanted: real)
    requires lo <= hi
    ensures Nearest(lo, hi, wanted, Clamp(lo, hi, wanted))
  {
  }

  /** A candidate differs on its axis only, where it is as near to the full step as the bounds allow. */
  lemma CandidateIsNearest(p: Space, at: Point, axis: nat, offset: real)
    requires InBounds(p, at) && axis < 6
    ensures var c := Candidate(p, at, axis, offset);
            && InBounds(p, c) && (forall k | 0 <= k < 6 && k != axis :: c[k] == at[k])
            && Nearest(p.lo[axis], p.hi[axis], at[axis] + offset, c[axis])
  {
    ClampIsNearest(p.lo[axis], p.hi[axis], at[axis] + offset);
  }

  /** A move evaluates the lower candidate first and takes it when it improves; it takes the upper one when that
      improves, the lower one does not and the budget lasts.  A bound the point is at costs no evaluation. */
  lemma AxisMoveExactly(p: Space, at: Point, axis: nat, reach: real, left: int)
    requires InBounds(p, at) && axis < 6 && reach > 0.0 && left > 0
    ensures var f := AxisMove(p, at, p.objective(at), axis, reach, left);
            var lower, upper := Candidate(p, at, axis, -reach), Candidate(p, at, axis, reach);
            var down := if p.lo[axis] < at[axis] then [lower] else [];
            var up := if at[axis] < p.hi[axis] && |down| < left then [upper] else [];
            && f.worst == p.objective(f.at)
            && if p.objective(lower) < p.objective(at) then f.tried == down && f.at == lower
               else
                 && f.tried == down + up
                 && f.at == if up != [] && p.objective(upper) < p.objective(at) then upper else at
  {
    var lower, upper := Candidate(p, at, axis, -reach), Candidate(p, at, axis, reach);
    assert lower[axis] == at[axis] ==> lower == at;
    assert upper[axis] == at[axis] ==> upper == at;
  }

  /** What one more axis makes of the best point so far. */
  function Moved(move: Mover, f: Found, axis: nat, reach: real, left: int): Found {
    if reach <= 0.0 then f else move(f.at, f.worst, axis, reach, left - |f.tried|).After(f.tried)
  }

  /** What the first `n` axes, in ascending order, make of `at`: each moves the best point so far. */
  function Swept(move: Mover, at: Point, worst: real, step: seq<real>, left: int, n: nat): Found
    requires n <= |step|
  {
    if n == 0 then Found(at, worst, [])
    else Moved(move, Swept(move, at, worst, step, left, n - 1), n - 1, step[n - 1], left)
  }

  /** The rest of a sweep. */
  function Rest(move: Mover, f: Found, step: seq<real>, left: int, n: nat): Found
    requires n <= |step|
  {
    Sweep(move, f.at, f.worst, step, left - |f.tried|, n).After(f.tried)
  }

  /** A move without budget is none. */
  ghost predicate Thrifty(move: Mover) {
    forall at, worst, axis, reach, left | left <= 0 :: move(at, worst, axis, reach, left) == Found(at, worst, [])
  }

  lemma RestStep(move: Mover, f: Found, step: seq<real>, left: int, n: nat)
    requires n < |step| && Thrifty(move)
    ensures Rest(move, f, step, left, n) == Rest(move, Moved(move, f, n, step[n], left), step, left, n + 1)
  {
    if left - |f.tried| <= 0 {
      assert f.tried + [] == f.tried;
    } else if step[n] > 0.0 {
      var m := move(f.at, f.worst, n, step[n], left - |f.tried|);
      var rest := Sweep(move, m.at, m.worst, step, left - |f.tried| - |m.tried|, n + 1);
      assert f.tried + (m.tried + rest.tried) == (f.tried + m.tried) + rest.tried;
    }
  }

  lemma {:induction false} SweptRest(move: Mover, at: Point, worst: real, step: seq<real>, left: int, n: nat)
    requires n <= |step| && Thrifty(move)
    ensures Rest(move, Swept(move, at, worst, step, left, n), step, left, n)
            == Rest(move, Found(at, worst, []), step, left, 0)
  {
    if n > 0 {
      SweptRest(move, at, worst, step, left, n - 1);
      RestStep(move, Swept(move, at, worst, step, left, n - 1), step, left, n - 1);
    }
  }

  /** A sweep moves along the axes in ascending order, each time from the best point so far; where it ends early nothing
      is left to do, since a move without budget is none. */
  lemma SweepIsItsMoves(p: Space, at: Point, worst: real, step: seq<real>, left: int)
    ensures SweeperOf(p)(at, worst, step, left) == Swept(MoverOf(p), at, worst, step, left, |step|)
  {
    var f := Swept(MoverOf(p), at, worst, step, left, |step|);
    SweptRest(MoverOf(p), at, worst, step, left, |step|);
    var whole := Sweep(MoverOf(p), at, worst, step, left, 0);
    assert f.tried + [] == f.tried && [] + whole.tried == whole.tried;
  }

  // ---- steps ------------------------------------------------------------------------------------------------

  lemma {:induction false} LargestIsMaximum(xs: seq<real>)
    requires xs != []
    ensures Largest(xs) in xs && forall k | 0 <= k < |xs| :: xs[k] <= Largest(xs)
  {
    if |xs| > 1 {
      LargestIsMaximum(xs[1..]);
      assert forall k | 1 <= k < |xs| :: xs[k] == xs[1..][k - 1];
    }
  }

  /** A seeded start first steps by its largest size along the axes of its centre, and by half of each size along that
      size's axis. */
  lemma SeedStepMeans(start: Point)
    requires |start| == 6
    ensures var step := SeedStep(start);
            && |step| == 6 && step[0] == step[1] == step[2] && step[0] in start[3..]
            && forall k | 3 <= k < 6 :: start[k] <= step[0] && step[k] + step[k] == start[k]
  {
    LargestIsMaximum(start[3..]);
    assert forall k | 3 <= k < 6 :: start[k] == start[3..][k - 3];
  }

  function Power(m: nat): nat {
    if m == 0 then 1 else 2 * Power(m - 1)
  }

  /** Halving m times divides every step by the m-th power of two. */
  lemma {:induction false} HalvedTimesMeans(step: seq<real>, m: nat, k: nat)
    requires k < |step|
    ensures HalvedTimes(step, m)[k] * Power(m) as real == step[k]
    decreases m
  {
    if m > 0 {
      HalvedTimesMeans(Halved(step), m - 1, k);
      var x, y := HalvedTimes(Halved(step), m - 1)[k], Power(m - 1) as real;
      assert Power(m) as real == 2.0 * y;
      assert x * (2.0 * y) == 2.0 * (x * y);
    }
  }

  /** A random start first steps by a quarter of the bounds: four steps lead from one bound to the other. */
  lemma RandomStepMeans(p: Space, k: nat)
    requires |p.lo| == |p.hi| == 6 && k < 6
    ensures p.lo[k] + RandomStep(p)[k] + RandomStep(p)[k] + RandomStep(p)[k] + RandomStep(p)[k] == p.hi[k]
  {
    assert Spans(p)[k] == p.hi[k] - p.lo[k];
  }

  // ---- starts -------------------------------------------------------------------------------------------------

  /** The positions of the usable starts. */
  function UsableStarts(starts: seq<Point>): set<nat> {
    set i: nat | i < |starts| && |starts[i]| == 6
  }

  /** `seed` is `start`, moved into the bounds by as little as possible. */
  ghost predicate NearestSeed(p: Space, start: Point, seed: Point) {
    InBounds(p, seed) && |start| == 6 && forall k | 0 <= k < 6 :: Nearest(p.lo[k], p.hi[k], start[k], seed[k])
  }

  ghost predicate SeededAt(p: Space, starts: seq<Point>, i: nat)
    requires |p.lo| == |p.hi| == 6 && i < |starts|
  {
    var n, seeds := |UsableStarts(starts[..i])|, SeededStarts(p, starts);
    n < |seeds| && NearestSeed(p, starts[i], seeds[n])
  }

  lemma SeedIsNearest(p: Space, start: Point)
    requires |p.lo| == |p.hi| == |start| == 6 && forall k | 0 <= k < 6 :: p.lo[k] <= p.hi[k]
    ensures NearestSeed(p, start, ClampedStart(p, start))
  {
    forall k | 0 <= k < 6
      ensures Nearest(p.lo[k], p.hi[k], start[k], ClampedStart(p, start)[k])
    {
      ClampIsNearest(p.lo[k], p.hi[k], start[k]);
    }
  }

  lemma UsableGrows(starts: seq<Point>)
    requires starts != []
    ensures var n := |starts| - 1;
            var init := UsableStarts(starts[..n]);
            UsableStarts(starts) == (if |starts[n]| == 6 then init + {n} else init) && n !in init
  {
  }

  lemma SeededBefore(p: Space, starts: seq<Point>, i: nat)
    requires |p.lo| == |p.hi| == 6 && i < |starts| - 1 && SeededAt(p, starts[..|starts| - 1], i)
    ensures SeededAt(p, starts, i)
  {
    assert starts[..|starts| - 1][..i] == starts[..i];
  }

  /** Each usable start is a seeded start, at the position its predecessors leave it, each coordinate the nearest in
      bounds; there are no others. */
  lemma {:induction false} SeededStartsExactly(p: Space, starts: seq<Point>)
    requires |p.lo| == |p.hi| == 6 && forall k | 0 <= k < 6 :: p.lo[k] <= p.hi[k]
    ensures |SeededStarts(p, starts)| == |UsableStarts(starts)|
    ensures forall i | i in UsableStarts(starts) :: SeededAt(p, starts, i)
  {
    if starts != [] {
      var n := |starts| - 1;
      SeededStartsExactly(p, starts[..n]);
      UsableGrows(starts);
      if |starts[n]| == 6 { SeedIsNearest(p, starts[n]); }
      forall i | i in UsableStarts(starts)
        ensures SeededAt(p, starts, i)
      {
        if i < n { SeededBefore(p, starts, i); }
      }
    }
  }

  /** Each draw says how far between the bounds a coordinate lies: any point short of the upper bounds can be drawn. */
  lemma RandomStartReaches(p: Space, draws: nat -> real, first: nat, target: Point)
    requires Searchable(p, draws) && |target| == 6
    requires forall k | 0 <= k < 6 :: draws(first + k) * (p.hi[k] - p.lo[k]) == target[k] - p.lo[k]
    ensures RandomStart(p, draws, first) == target
  {
    assert forall k | 0 <= k < 6 :: RandomStart(p, draws, first)[k] == target[k];
  }

  // ---- shares and turns -----------------------------------------------------------------------------------------

  /** The budget split into two more parts than there are seeds, but never less than 60 evaluations. */
  lemma PerStartMeans(p: Space, seeded: nat)
    ensures seeded == 0 ==> PerStart(p, seeded) == p.evaluations
    ensures seeded > 0 ==>
              && PerStart(p, seeded) >= 60 && p.evaluations < (PerStart(p, seeded) + 1) * (seeded + 2)
              && (PerStart(p, seeded) > 60 ==> PerStart(p, seeded) * (seeded + 2) <= p.evaluations)
  {
    var parts, share := seeded + 2, p.evaluations / (seeded + 2);
    assert share * parts <= p.evaluations < (share + 1) * parts;
    if seeded > 0 { ShareMonotone(share + 1, PerStart(p, seeded) + 1, parts); }
  }

  /** The progress of a search after n turns. */
  ghost function ProgressAfter(p: Space, draws: nat -> real, restart: Restarter, n: nat): Progress
    requires Searchable(p, draws)
  {
    if n == 0 then Beginning(p)
    else
      var now := ProgressAfter(p, draws, restart, n - 1);
      Resumed(p, now, Turn(p, draws, restart, now))
  }

  /** The n-th turn starts at the n-th seeded start, or with six fresh draws for each turn after the seeds. */
  lemma {:induction false} TurnSchedule(p: Space, draws: nat -> real, restart: Restarter, n: nat)
    requires Searchable(p, draws)
    ensures var now, seeds := ProgressAfter(p, draws, restart, n), |SeededStarts(p, p.starts)|;
            if n <= seeds then now.taken == n && now.drawn == 0
            else now.taken == seeds && now.drawn == 6 * (n - seeds)
  {
    if n > 0 { TurnSchedule(p, draws, restart, n - 1); }
  }

  /** The point the n-th turn starts from. */
  ghost function StartOf(p: Space, draws: nat -> real, n: nat): Point
    requires Searchable(p, draws)
  {
    var seeds := SeededStarts(p, p.starts);
    if n < |seeds| then seeds[n] else RandomStart(p, draws, 6 * (n - |seeds|))
  }

  /** The length of the first step of the n-th turn along each axis. */
  ghost function StepOf(p: Space, draws: nat -> real, n: nat): (step: seq<real>)
    requires Searchable(p, draws)
    ensures |step| == 6
  {
    var seeds := SeededStarts(p, p.starts);
    if n < |seeds| then
      SeedInBounds(p, n);
      SeedStep(seeds[n])
    else RandomStep(p)
  }

  /** A restart from `start` within `share` and what is left of the budget, ends short of both only at a tolerable point
      or where no move of the last length tried improves. */
  ghost predicate TakesItsShare(p: Space, start: Point, step: seq<real>, share: int, left: int, f: Found) {
    && f.tried != [] && f.tried[0] == start && InBounds(p, f.at) && |f.tried| <= share && |f.tried| <= left
    && (|f.tried| == share || |f.tried| == left || f.worst <= p.tolerance
        || (|step| == 6 && Exhausted(p, f.at, step)))
  }

  lemma RestartTakesItsShare(p: Space, restart: Restarter, start: Point, step: seq<real>, share: int, left: int)
    requires RestartsKeep(p, restart) && |step| == 6 && InBounds(p, start) && share > 0 && left > 0
    ensures TakesItsShare(p, start, step, share, left, restart(start, step, if share < left then share else left))
  {
    var most := if share < left then share else left;
    assert RestartKeepsAt(p, restart, start, step, most, []);
  }

  /** The n-th turn begins at its start, with its step and its share of the budget. */
  lemma TurnExactly(p: Space, draws: nat -> real, restart: Restarter, n: nat)
    requires Searchable(p, draws) && RestartsKeep(p, restart)
    requires ProgressAfter(p, draws, restart, n).used < p.evaluations
    ensures var now, seeds := ProgressAfter(p, draws, restart, n), |SeededStarts(p, p.starts)|;
            TakesItsShare(p, StartOf(p, draws, n), StepOf(p, draws, n),
                          if n < seeds then PerStart(p, seeds) else p.evaluations, p.evaluations - now.used,
                          Turn(p, draws, restart, now))
  {
    var now := ProgressAfter(p, draws, restart, n);
    TurnSchedule(p, draws, restart, n);
    TurnAt(p, draws, restart, n, now);
  }

  lemma TurnAt(p: Space, draws: nat -> real, restart: Restarter, n: nat, now: Progress)
    requires Searchable(p, draws) && RestartsKeep(p, restart) && now.used < p.evaluations
    requires var seeds := |SeededStarts(p, p.starts)|;
             if n < seeds then now.taken == n else now.taken == seeds && now.drawn == 6 * (n - seeds)
    ensures var seeds := |SeededStarts(p, p.starts)|;
            TakesItsShare(p, StartOf(p, draws, n), StepOf(p, draws, n),
                          if n < seeds then PerStart(p, seeds) else p.evaluations, p.evaluations - now.used,
                          Turn(p, draws, restart, now))
  {
    var seeds := SeededStarts(p, p.starts);
    var left := p.evaluations - now.used;
    if n < |seeds| {
      SeedInBounds(p, n);
      RestartTakesItsShare(p, restart, seeds[n], SeedStep(seeds[n]), PerStart(p, |seeds|), left);
    } else {
      RestartTakesItsShare(p, restart, RandomStart(p, draws, now.drawn), RandomStep(p), p.evaluations, left);
    }
  }

  ghost predicate Stops(p: Space, now: Progress) {
    now.used >= p.evaluations || now.worst <= p.tolerance
  }

  /** What the turns from the n-th up to `last` evaluate. */
  ghost function TriedBetween(p: Space, draws: nat -> real, restart: Restarter, n: nat, last: nat): seq<Point>
    requires Searchable(p, draws)
    decreases last - n
  {
    if last <= n then []
    else Turn(p, draws, restart, ProgressAfter(p, draws, restart, n)).tried
         + TriedBetween(p, draws, restart, n + 1, last)
  }

  /** Of the turns from the n-th on, `last` is the first to find the search stopped. */
  ghost predicate StopsFirst(p: Space, draws: nat -> real, restart: Restarter, n: nat, last: nat)
    requires Searchable(p, draws)
  {
    && n <= last && Stops(p, ProgressAfter(p, draws, restart, last))
    && forall m: nat | n <= m < last :: !Stops(p, ProgressAfter(p, draws, restart, m))
  }

  lemma SearchStep(p: Space, draws: nat -> real, restart: Restarter, now: Progress)
    requires Searchable(p, draws) && Begins(restart) && !Stops(p, now)
    ensures var f := Turn(p, draws, restart, now);
            f.tried != []
            && SearchFrom(p, draws, restart, now)
               == SearchFrom(p, draws, restart, Resumed(p, now, f)).After(f.tried)
  {
    TurnBegins(p, draws, restart, now);
  }

  /** From the n-th turn on a search is its turns, up to the first one after which it stops. */
  lemma {:induction false} TurnsFrom(p: Space, draws: nat -> real, restart: Restarter, n: nat, now: Progress)
    returns (last: nat)
    requires Searchable(p, draws) && Begins(restart) && now == ProgressAfter(p, draws, restart, n)
    ensures StopsFirst(p, draws, restart, n, last)
    ensures var end := ProgressAfter(p, draws, restart, last);
            SearchFrom(p, draws, restart, now)
            == Found(end.best, end.worst, TriedBetween(p, draws, restart, n, last))
    decreases p.evaluations - now.used
  {
    if Stops(p, now) {
      last := n;
    } else {
      var next := Resumed(p, now, Turn(p, draws, restart, now));
      SearchStep(p, draws, restart, now);
      last := TurnsFrom(p, draws, restart, n + 1, next);
    }
  }

  /** The search evaluates the midpoint and then, turn by turn, the points of its turns, until the first turn after
      which the budget is spent or the best point so far is tolerable. */
  lemma SearchIsItsTurns(p: Space, draws: nat -> real) returns (last: nat)
    requires Searchable(p, draws)
    ensures var restart := RestarterOf(p);
            var end := ProgressAfter(p, draws, restart, last);
            && StopsFirst(p, draws, restart, 0, last)
            && Search(p, draws)
               == Found(end.best, end.worst, [Midpoint(p)] + TriedBetween(p, draws, restart, 0, last))
  {
    RestarterBegins(p);
    last := TurnsFrom(p, draws, RestarterOf(p), 0, Beginning(p));
  }
}
