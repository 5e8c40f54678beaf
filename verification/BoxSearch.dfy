/**
  Bounded coordinate descent over exact reals.  The random generator is an arbitrary sequence of draws in [0, 1).

  Which points the search evaluates, in which order, is a function of the problem and the draws, built up level by
  level: one move along an axis, a sweep over the axes, a descent by sweeps, a search by descents.  Each level takes the
  one below as a parameter; what it guarantees is proved from what the one below guarantees, and the loops are proved to
  compute it.
 */
module BoxSearch {
  import opened Common
  import opened BoxFeasibility

  /** What the search works on: an objective over a box of parameters, its budget and where to look first. */
  datatype Space = Space(objective: Point -> real, lo: Point, hi: Point, evaluations: int, tolerance: real,
                         starts: seq<Point>)

  predicate InBounds(p: Space, at: Point) {
    |at| == |p.lo| == |p.hi| == 6 && forall k | 0 <= k < 6 :: p.lo[k] <= at[k] <= p.hi[k]
  }

  /** Where a search ends, how good that is, and which points it evaluates, in order. */
  datatype Found = Found(at: Point, worst: real, tried: seq<Point>) {
    function After(earlier: seq<Point>): Found {
      this.(tried := earlier + tried)
    }
  }

  // ---- what every search keeps ------------------------------------------------------------------------

  ghost predicate AllInBounds(p: Space, trace: seq<Point>) {
    forall i | 0 <= i < |trace| :: InBounds(p, trace[i])
  }

  /** `at` is the i-th recorded point, and better than those recorded before it from `from` on. */
  ghost predicate FirstAt(p: Space, trace: seq<Point>, from: nat, i: nat, at: Point, worst: real) {
    from <= i < |trace| && trace[i] == at && forall j | from <= j < i :: worst < p.objective(trace[j])
  }

  /** `at` is a recorded point and no recorded point from `from` on is better; of equally good ones it is the first. */
  ghost predicate BestSince(p: Space, trace: seq<Point>, from: nat, at: Point, worst: real) {
    && worst == p.objective(at)
    && (exists i: nat :: FirstAt(p, trace, from, i, at, worst))
    && forall i | from <= i < |trace| :: worst <= p.objective(trace[i])
  }

  /** All recorded points are in bounds, and `at` is the best of those from `from` on. */
  ghost predicate Tracks(p: Space, trace: seq<Point>, from: nat, at: Point, worst: real) {
    InBounds(p, at) && AllInBounds(p, trace) && BestSince(p, trace, from, at, worst)
  }

  /** A search with `left` evaluations stays in bounds, within its budget, and ends at the best point so far. */
  ghost predicate Keeps(p: Space, trace: seq<Point>, from: nat, left: int, f: Found) {
    && Tracks(p, trace + f.tried, from, f.at, f.worst)
    && (f.tried == [] || |f.tried| <= left)
  }

  /** A search from `at` that improves has evaluated something, and one that does not ends where it began. */
  predicate Tries(f: Found, at: Point, worst: real) {
    f.worst <= worst && (f.worst < worst ==> f.tried != []) && (f.worst == worst ==> f.at == at)
  }

  lemma TrackNext(p: Space, trace: seq<Point>, from: nat, at: Point, worst: real, next: Point)
    requires Tracks(p, trace, from, at, worst) && InBounds(p, next)
    ensures if p.objective(next) < worst then Tracks(p, trace + [next], from, next, p.objective(next))
            else Tracks(p, trace + [next], from, at, worst)
  {
    var grown := trace + [next];
    var i: nat :| FirstAt(p, trace, from, i, at, worst);
    if p.objective(next) < worst {
      assert FirstAt(p, grown, from, |trace|, next, p.objective(next));
    } else {
      assert FirstAt(p, grown, from, i, at, worst);
    }
  }

  lemma KeepsNothing(p: Space, trace: seq<Point>, from: nat, at: Point, worst: real, left: int)
    requires Tracks(p, trace, from, at, worst)
    ensures Keeps(p, trace, from, left, Found(at, worst, []))
  {
    assert trace + [] == trace;
  }

  /** A search goes on from the points tried so far. */
  lemma KeepsAfter(p: Space, trace: seq<Point>, tried: seq<Point>, from: nat, left: int, f: Found)
    requires Keeps(p, trace + tried, from, left - |tried|, f) && (tried == [] || |tried| <= left)
    ensures Keeps(p, trace, from, left, f.After(tried))
  {
    assert (trace + tried) + f.tried == trace + (tried + f.tried);
  }

  lemma TriesAfter(f: Found, rest: Found, at: Point, worst: real)
    requires Tries(f, at, worst) && Tries(rest, f.at, f.worst)
    ensures Tries(rest.After(f.tried), at, worst)
  {
  }

  // ---- one move along an axis ---------------------------------------------------------------------------

  function Clamp(lo: real, hi: real, v: real): real {
    Min(hi, Max(lo, v))
  }

  /** The point one step of the given length away, kept in bounds. */
  function Candidate(p: Space, at: Point, axis: nat, offset: real): Point
    requires axis < |at| && axis < |p.lo| && axis < |p.hi|
  {
    at[axis := Clamp(p.lo[axis], p.hi[axis], at[axis] + offset)]
  }

  /** One direction: a candidate that is the same point is not evaluated. */
  function Probe(p: Space, at: Point, worst: real, axis: nat, offset: real, left: int): (r: Found)
    requires axis < |at| && axis < |p.lo| && axis < |p.hi|
    ensures |r.at| == |at|
  {
    var candidate := Candidate(p, at, axis, offset);
    if left <= 0 || candidate[axis] == at[axis] then Found(at, worst, [])
    else if p.objective(candidate) < worst then Found(candidate, p.objective(candidate), [candidate])
    else Found(at, worst, [candidate])
  }

  /** Both directions, lower first; the first improvement is taken. */
  function AxisMove(p: Space, at: Point, worst: real, axis: nat, reach: real, left: int): (r: Found)
    requires axis < |at| && axis < |p.lo| && axis < |p.hi|
    ensures |r.at| == |at|
  {
    var lower := Probe(p, at, worst, axis, -reach, left);
    if lower.worst < worst then lower
    else Probe(p, at, worst, axis, reach, left - |lower.tried|).After(lower.tried)
  }

  /** No move along the axis by that length improves on `at`. */
  ghost predicate NoBetterOnAxis(p: Space, at: Point, axis: nat, reach: real)
    requires axis < |at| && axis < |p.lo| && axis < |p.hi|
  {
    && p.objective(Candidate(p, at, axis, -reach)) >= p.objective(at)
    && p.objective(Candidate(p, at, axis, reach)) >= p.objective(at)
  }

  lemma ProbeKeeps(p: Space, at: Point, worst: real, axis: nat, offset: real, left: int, from: nat, trace: seq<Point>)
    requires axis < 6 && Tracks(p, trace, from, at, worst)
    ensures Keeps(p, trace, from, left, Probe(p, at, worst, axis, offset, left))
    ensures Tries(Probe(p, at, worst, axis, offset, left), at, worst)
  {
    var candidate := Candidate(p, at, axis, offset);
    KeepsNothing(p, trace, from, at, worst, left);
    assert InBounds(p, candidate);
    TrackNext(p, trace, from, at, worst, candidate);
  }

  lemma AxisMoveKeeps(p: Space, at: Point, worst: real, axis: nat, reach: real, left: int, from: nat, trace: seq<Point>)
    requires axis < 6 && Tracks(p, trace, from, at, worst)
    ensures Keeps(p, trace, from, left, AxisMove(p, at, worst, axis, reach, left))
    ensures Tries(AxisMove(p, at, worst, axis, reach, left), at, worst)
  {
    var lower := Probe(p, at, worst, axis, -reach, left);
    ProbeKeeps(p, at, worst, axis, -reach, left, from, trace);
    if lower.worst >= worst {
      var upper := Probe(p, at, worst, axis, reach, left - |lower.tried|);
      ProbeKeeps(p, at, worst, axis, reach, left - |lower.tried|, from, trace + lower.tried);
      KeepsAfter(p, trace, lower.tried, from, left, upper);
      TriesAfter(lower, upper, at, worst);
    }
  }

  /** A move that does not improve, with budget left, has tried both directions. */
  lemma UnmovedAxis(p: Space, at: Point, axis: nat, reach: real, left: int)
    requires axis < |at| && axis < |p.lo| && axis < |p.hi|
    ensures var f := AxisMove(p, at, p.objective(at), axis, reach, left);
            f.worst == p.objective(at) && |f.tried| < left ==> NoBetterOnAxis(p, at, axis, reach)
  {
    var lower, upper := Candidate(p, at, axis, -reach), Candidate(p, at, axis, reach);
    assert lower[axis] == at[axis] ==> lower == at;
    assert upper[axis] == at[axis] ==> upper == at;
  }

  // ---- a sweep over the axes ------------------------------------------------------------------------------

  type Mover = (Point, real, nat, real, int) -> Found

  function MoverOf(p: Space): Mover {
    (at: Point, worst: real, axis: nat, reach: real, left: int) =>
      if axis < |at| && axis < |p.lo| && axis < |p.hi| then AxisMove(p, at, worst, axis, reach, left)
      else Found(at, worst, [])
  }

  /** From the given axis on, each from the best point found so far. */
  function Sweep(move: Mover, at: Point, worst: real, step: seq<real>, left: int, axis: nat): Found
    requires axis <= |step|
    decreases |step| - axis
  {
    if axis == |step| || left <= 0 then Found(at, worst, [])
    else if step[axis] <= 0.0 then Sweep(move, at, worst, step, left, axis + 1)
    else
      var f := move(at, worst, axis, step[axis], left);
      Sweep(move, f.at, f.worst, step, left - |f.tried|, axis + 1).After(f.tried)
  }

  ghost predicate MoveKeepsAt(p: Space, move: Mover, at: Point, worst: real, axis: nat, reach: real, left: int,
                              from: nat,
                              trace: seq<Point>) {
    axis < 6 && Tracks(p, trace, from, at, worst) ==>
      var f := move(at, worst, axis, reach, left);
      && Keeps(p, trace, from, left, f) && Tries(f, at, worst)
      && (f.worst == worst && |f.tried| < left ==> NoBetterOnAxis(p, at, axis, reach))
  }

  ghost predicate MoveKeeps(p: Space, move: Mover) {
    forall at, worst, axis: nat, reach, left, from: nat, trace
      {:trigger MoveKeepsAt(p, move, at, worst, axis, reach, left, from, trace)} ::
      MoveKeepsAt(p, move, at, worst, axis, reach, left, from, trace)
  }

  lemma MoverKeeps(p: Space)
    ensures MoveKeeps(p, MoverOf(p))
  {
    var move := MoverOf(p);
    forall at, worst, axis: nat, reach, left, from: nat, trace
      ensures MoveKeepsAt(p, move, at, worst, axis, reach, left, from, trace)
    {
      if axis < 6 && Tracks(p, trace, from, at, worst) {
        AxisMoveKeeps(p, at, worst, axis, reach, left, from, trace);
        UnmovedAxis(p, at, axis, reach, left);
      }
    }
  }

  /** No move along any axis from `from` on, with a positive step, improves on `at`. */
  ghost predicate NoBetter(p: Space, at: Point, step: seq<real>, from: nat)
    requires |step| == |at| == |p.lo| == |p.hi| == 6
  {
    forall axis: nat | from <= axis < 6 && step[axis] > 0.0 :: NoBetterOnAxis(p, at, axis, step[axis])
  }

  lemma {:induction false} SweepKeeps(p: Space, move: Mover, at: Point, worst: real, step: seq<real>, left: int,
                                      axis: nat, from: nat, trace: seq<Point>)
    requires MoveKeeps(p, move) && |step| == 6 && axis <= 6 && Tracks(p, trace, from, at, worst)
    ensures var f := Sweep(move, at, worst, step, left, axis);
            && Keeps(p, trace, from, left, f) && Tries(f, at, worst)
            && (f.worst == worst && |f.tried| < left ==> NoBetter(p, at, step, axis))
    decreases 6 - axis
  {
    if axis == 6 || left <= 0 {
      KeepsNothing(p, trace, from, at, worst, left);
    } else if step[axis] <= 0.0 {
      SweepKeeps(p, move, at, worst, step, left, axis + 1, from, trace);
    } else {
      var f := move(at, worst, axis, step[axis], left);
      var rest := Sweep(move, f.at, f.worst, step, left - |f.tried|, axis + 1);
      assert MoveKeepsAt(p, move, at, worst, axis, step[axis], left, from, trace);
      SweepKeeps(p, move, f.at, f.worst, step, left - |f.tried|, axis + 1, from, trace + f.tried);
      KeepsAfter(p, trace, f.tried, from, left, rest);
      TriesAfter(f, rest, at, worst);
    }
  }

  // ---- a descent by sweeps --------------------------------------------------------------------------------

  function Largest(xs: seq<real>): real
    requires xs != []
  {
    if |xs| == 1 then xs[0] else Max(xs[0], Largest(xs[1..]))
  }

  lemma {:induction false} LargestHalves(xs: seq<real>)
    requires xs != []
    ensures Largest(Halved(xs)) == Largest(xs) * 0.5
  {
    if |xs| > 1 {
      LargestHalves(xs[1..]);
      assert Halved(xs)[1..] == Halved(xs[1..]);
    }
  }

  function Halved(xs: seq<real>): seq<real> {
    seq(|xs|, k requires 0 <= k < |xs| => xs[k] * 0.5)
  }

  /** How often a step can still be halved before it falls to the limit. */
  ghost function HalvingsLeft(step: real): nat {
    if step <= 0.0 then 0 else (step * 10000.0).Floor
  }

  lemma HalvingsFall(step: real)
    requires step > 0.0001
    ensures HalvingsLeft(step * 0.5) < HalvingsLeft(step)
  {
    var x := step * 10000.0;
    assert x > 1.0;
    assert step * 0.5 * 10000.0 == x * 0.5;
    if x < 2.0 {
      assert (x * 0.5).Floor == 0;
    } else {
      assert x * 0.5 <= x - 1.0;
    }
  }

  type Sweeper = (Point, real, seq<real>, int) -> Found

  function SweeperOf(p: Space): Sweeper {
    (at: Point, worst: real, step: seq<real>, left: int) => Sweep(MoverOf(p), at, worst, step, left, 0)
  }

  /** A sweep that improves has used some of the budget. */
  ghost predicate Advances(sweep: Sweeper) {
    forall at, worst, step, left ::
      sweep(at, worst, step, left).worst < worst ==> sweep(at, worst, step, left).tried != []
  }

  /** Sweeps until the budget, the step or the objective allows no more; a sweep without improvement halves the
      step. */
  ghost function Descent(tolerance: real, sweep: Sweeper, at: Point, worst: real, step: seq<real>, left: int): Found
    requires Advances(sweep) && step != []
    decreases left, HalvingsLeft(Largest(step))
  {
    if left <= 0 || Largest(step) <= 0.0001 || worst <= tolerance then Found(at, worst, [])
    else
      var f := sweep(at, worst, step, left);
      if f.worst < worst then Descent(tolerance, sweep, f.at, f.worst, step, left - |f.tried|).After(f.tried)
      else
        LargestHalves(step);
        HalvingsFall(Largest(step));
        Descent(tolerance, sweep, f.at, f.worst, Halved(step), left - |f.tried|).After(f.tried)
  }

  function HalvedTimes(step: seq<real>, m: nat): (r: seq<real>)
    ensures |r| == |step|
    decreases m
  {
    if m == 0 then step else HalvedTimes(Halved(step), m - 1)
  }

  /** The step was halved until it fell to the limit, and the last length above it improves nothing. */
  ghost predicate Exhausted(p: Space, at: Point, step: seq<real>)
    requires |step| == |at| == |p.lo| == |p.hi| == 6
  {
    exists m: nat ::
      Largest(HalvedTimes(step, m)) <= 0.0001 && (m > 0 ==> NoBetter(p, at, HalvedTimes(step, m - 1), 0))
  }

  lemma ExhaustedHalf(p: Space, at: Point, step: seq<real>)
    requires |step| == |at| == |p.lo| == |p.hi| == 6 && Exhausted(p, at, Halved(step))
    requires Largest(Halved(step)) <= 0.0001 ==> NoBetter(p, at, step, 0)
    ensures Exhausted(p, at, step)
  {
    var half := Halved(step);
    var m: nat :| Largest(HalvedTimes(half, m)) <= 0.0001 && (m > 0 ==> NoBetter(p, at, HalvedTimes(half, m - 1), 0));
    assert HalvedTimes(step, m + 1) == HalvedTimes(half, m);
    if m == 0 {
      assert HalvedTimes(half, 0) == half && HalvedTimes(step, 0) == step;
    } else {
      assert HalvedTimes(step, m) == HalvedTimes(half, m - 1);
    }
  }

  /** What a sweep has to guarantee for a descent. */
  ghost predicate SweepKeepsAt(p: Space, sweep: Sweeper, at: Point, worst: real, step: seq<real>, left: int, from: nat,
                               trace: seq<Point>) {
    |step| == 6 && Tracks(p, trace, from, at, worst) ==>
      var f := sweep(at, worst, step, left);
      && Keeps(p, trace, from, left, f) && Tries(f, at, worst)
      && (f.worst == worst && |f.tried| < left ==> NoBetter(p, at, step, 0))
  }

  ghost predicate SweepsKeep(p: Space, sweep: Sweeper) {
    forall at, worst, step, left, from: nat, trace
      {:trigger SweepKeepsAt(p, sweep, at, worst, step, left, from, trace)} ::
      SweepKeepsAt(p, sweep, at, worst, step, left, from, trace)
  }

  lemma SweeperKeeps(p: Space)
    ensures SweepsKeep(p, SweeperOf(p))
  {
    var sweep := SweeperOf(p);
    MoverKeeps(p);
    forall at, worst, step, left, from: nat, trace
      ensures SweepKeepsAt(p, sweep, at, worst, step, left, from, trace)
    {
      if |step| == 6 && Tracks(p, trace, from, at, worst) {
        SweepKeeps(p, MoverOf(p), at, worst, step, left, 0, from, trace);
      }
    }
  }

  lemma {:induction false} SweepAdvances(move: Mover, at: Point, worst: real, step: seq<real>, left: int, axis: nat)
    requires axis <= |step|
    requires forall at, worst, axis, reach, left ::
               move(at, worst, axis, reach, left).worst <= worst
               && (move(at, worst, axis, reach, left).worst < worst ==> move(at, worst, axis, reach, left).tried != [])
    ensures var f := Sweep(move, at, worst, step, left, axis);
            f.worst <= worst && (f.worst < worst ==> f.tried != [])
    decreases |step| - axis
  {
    if axis < |step| && left > 0 {
      if step[axis] <= 0.0 {
        SweepAdvances(move, at, worst, step, left, axis + 1);
      } else {
        var f := move(at, worst, axis, step[axis], left);
        SweepAdvances(move, f.at, f.worst, step, left - |f.tried|, axis + 1);
      }
    }
  }

  lemma SweeperAdvances(p: Space)
    ensures Advances(SweeperOf(p))
  {
    forall at, worst, step, left
      ensures var f := SweeperOf(p)(at, worst, step, left);
              f.worst < worst ==> f.tried != []
    {
      SweepAdvances(MoverOf(p), at, worst, step, left, 0);
    }
  }

  /** A descent from `at` keeps the best point, and stops early only at a tolerable point or where no move of the last
      length tried improves. */
  ghost predicate Descends(p: Space, trace: seq<Point>, from: nat, worst: real, step: seq<real>, left: int, f: Found) {
    && Keeps(p, trace, from, left, f) && f.worst <= worst && |step| == 6
    && (|f.tried| >= left || f.worst <= p.tolerance || Exhausted(p, f.at, step))
  }

  lemma DescendsAfter(p: Space, trace: seq<Point>, from: nat, worst: real, step: seq<real>, left: int, f: Found,
                      rest: Found)
    requires Keeps(p, trace, from, left, f) && f.worst <= worst
    requires Descends(p, trace + f.tried, from, f.worst, step, left - |f.tried|, rest)
    ensures Descends(p, trace, from, worst, step, left, rest.After(f.tried))
  {
    KeepsAfter(p, trace, f.tried, from, left, rest);
  }

  lemma HalvedDescendsAfter(p: Space, trace: seq<Point>, from: nat, worst: real, step: seq<real>, left: int, f: Found,
                            rest: Found)
    requires Keeps(p, trace, from, left, f) && f.worst <= worst && |step| == 6
    requires Descends(p, trace + f.tried, from, f.worst, Halved(step), left - |f.tried|, rest)
    requires |f.tried| < left ==> NoBetter(p, f.at, step, 0)
    requires Largest(Halved(step)) <= 0.0001 ==> rest.at == f.at
    ensures Descends(p, trace, from, worst, step, left, rest.After(f.tried))
  {
    KeepsAfter(p, trace, f.tried, from, left, rest);
    if |f.tried| + |rest.tried| < left && rest.worst > p.tolerance { ExhaustedHalf(p, rest.at, step); }
  }

  lemma {:induction false} DescentKeeps(p: Space, sweep: Sweeper, at: Point, worst: real, step: seq<real>, left: int,
                                        from: nat, trace: seq<Point>)
    requires SweepsKeep(p, sweep) && Advances(sweep) && |step| == 6 && Tracks(p, trace, from, at, worst)
    ensures Descends(p, trace, from, worst, step, left, Descent(p.tolerance, sweep, at, worst, step, left))
    decreases left, HalvingsLeft(Largest(step))
  {
    if left <= 0 || Largest(step) <= 0.0001 || worst <= p.tolerance {
      KeepsNothing(p, trace, from, at, worst, left);
      assert HalvedTimes(step, 0) == step;
    } else {
      var f := sweep(at, worst, step, left);
      assert SweepKeepsAt(p, sweep, at, worst, step, left, from, trace);
      if f.worst < worst {
        DescentKeeps(p, sweep, f.at, f.worst, step, left - |f.tried|, from, trace + f.tried);
        DescendsAfter(p, trace, from, worst, step, left, f,
                      Descent(p.tolerance, sweep, f.at, f.worst, step, left - |f.tried|));
      } else {
        LargestHalves(step);
        HalvingsFall(Largest(step));
        DescentKeeps(p, sweep, f.at, f.worst, Halved(step), left - |f.tried|, from, trace + f.tried);
        HalvedDescendsAfter(p, trace, from, worst, step, left, f,
                            Descent(p.tolerance, sweep, f.at, f.worst, Halved(step), left - |f.tried|));
      }
    }
  }

  // ---- the starts -----------------------------------------------------------------------------------------

  function ClampedStart(p: Space, start: Point): Point
    requires |p.lo| == |p.hi| == |start| == 6
  {
    seq(6, k requires 0 <= k < 6 => Clamp(p.lo[k], p.hi[k], start[k]))
  }

  function Midpoint(p: Space): Point
    requires |p.lo| == |p.hi| == 6
  {
    seq(6, k requires 0 <= k < 6 => (p.lo[k] + p.hi[k]) / 2.0)
  }

  function Spans(p: Space): seq<real>
    requires |p.lo| == |p.hi| == 6
  {
    seq(6, k requires 0 <= k < 6 => p.hi[k] - p.lo[k])
  }

  function Between(lo: real, hi: real, draw: real): (v: real)
    requires lo <= hi && 0.0 <= draw < 1.0
    ensures lo <= v <= hi
  {
    lo + Scaled(draw, hi - lo)
  }

  function Scaled(draw: real, span: real): (v: real)
    requires 0.0 <= draw < 1.0 && 0.0 <= span
    ensures 0.0 <= v <= span
  {
    ScaledBelow(draw, span);
    draw * span
  }

  lemma ScaledBelow(d: real, s: real)
    requires 0.0 <= d < 1.0 && 0.0 <= s
    ensures 0.0 <= d * s <= s
  {
    assert s - d * s == (1.0 - d) * s;
  }

  function RandomStart(p: Space, draws: nat -> real, first: nat): (start: Point)
    requires |p.lo| == |p.hi| == 6 && forall k | 0 <= k < 6 :: p.lo[k] <= p.hi[k]
    requires forall n :: 0.0 <= draws(n) < 1.0
    ensures InBounds(p, start)
  {
    seq(6, k requires 0 <= k < 6 => Between(p.lo[k], p.hi[k], draws(first + k)))
  }

  /** The usable starts, clamped, in order. */
  function SeededStarts(p: Space, starts: seq<Point>): seq<Point>
    requires |p.lo| == |p.hi| == 6
  {
    if starts == [] then []
    else
      var init := SeededStarts(p, starts[..|starts| - 1]);
      if |starts[|starts| - 1]| == 6 then init + [ClampedStart(p, starts[|starts| - 1])] else init
  }

  lemma {:induction false} SeededInBounds(p: Space, starts: seq<Point>)
    requires |p.lo| == |p.hi| == 6 && forall k | 0 <= k < 6 :: p.lo[k] <= p.hi[k]
    ensures forall start | start in SeededStarts(p, starts) :: InBounds(p, start)
  {
    if starts != [] { SeededInBounds(p, starts[..|starts| - 1]); }
  }

  /** The evaluations one seeded start may use. */
  function PerStart(p: Space, seeded: nat): int {
    var share := p.evaluations / (seeded + 2);
    if seeded == 0 then p.evaluations else if share > 60 then share else 60
  }

  function Budget(p: Space): int {
    if p.evaluations > 1 then p.evaluations else 1
  }

  /** The i-th seeded start is reached when the shares of the earlier ones leave budget. */
  predicate ShareReaches(p: Space, seeded: nat, i: nat) {
    1 + i * PerStart(p, seeded) < p.evaluations
  }

  /** When the shares are above the minimum, every seeded start is reached. */
  lemma FairShareReachesAll(p: Space, seeded: nat, i: nat)
    requires i < seeded && p.evaluations / (seeded + 2) >= 60
    ensures ShareReaches(p, seeded, i)
  {
    var share := p.evaluations / (seeded + 2);
    assert share * (seeded + 2) <= p.evaluations;
    assert i * share <= (seeded - 1) * share by { ShareMonotone(i, seeded - 1, share); }
    assert (seeded - 1) * share == share * (seeded + 2) - 3 * share;
  }

  lemma ShareMonotone(a: int, b: int, c: int)
    requires a <= b && c >= 0
    ensures a * c <= b * c
  {
    assert b * c - a * c == (b - a) * c;
  }

  lemma NextShare(k: int, share: int)
    ensures (k + 1) * share == k * share + share
  {
  }

  /** The bounds are usable, and the draws are those of a random generator. */
  ghost predicate Searchable(p: Space, draws: nat -> real) {
    && |p.lo| == |p.hi| == 6 && (forall k | 0 <= k < 6 :: p.lo[k] <= p.hi[k])
    && forall n :: 0.0 <= draws(n) < 1.0
  }

  /** A seeded start steps in proportion to its own size. */
  function SeedStep(start: Point): seq<real>
    requires |start| == 6
  {
    var reach := Largest(start[3..]);
    [reach, reach, reach, 0.5 * start[3], 0.5 * start[4], 0.5 * start[5]]
  }

  function RandomStep(p: Space): seq<real>
    requires |p.lo| == |p.hi| == 6
  {
    seq(6, k requires 0 <= k < 6 => 0.25 * Spans(p)[k])
  }

  /** What is left of the budget for a seeded start. */
  function Share(p: Space, seeded: nat, used: nat): int {
    if used + PerStart(p, seeded) < p.evaluations then PerStart(p, seeded) else p.evaluations - used
  }

  // ---- a search by descents ---------------------------------------------------------------------------------

  type Restarter = (Point, seq<real>, int) -> Found

  /** The start is evaluated, then descended from. */
  ghost function Restart(p: Space, start: Point, step: seq<real>, left: int): Found {
    SweeperAdvances(p);
    if step == [] then Found(start, p.objective(start), [start])
    else Descent(p.tolerance, SweeperOf(p), start, p.objective(start), step, left - 1).After([start])
  }

  ghost function RestarterOf(p: Space): Restarter {
    (start: Point, step: seq<real>, left: int) => Restart(p, start, step, left)
  }

  ghost predicate Begins(restart: Restarter) {
    forall start, step, left :: restart(start, step, left).tried != []
  }

  /** The next seeded start with its share of the budget, else a random one with all of it. */
  ghost function Turn(p: Space, draws: nat -> real, restart: Restarter, now: Progress): Found
    requires Searchable(p, draws)
  {
    var seeds := SeededStarts(p, p.starts);
    if now.taken < |seeds| then
      SeedInBounds(p, now.taken);
      restart(seeds[now.taken], SeedStep(seeds[now.taken]), Share(p, |seeds|, now.used))
    else
      restart(RandomStart(p, draws, now.drawn), RandomStep(p), p.evaluations - now.used)
  }

  lemma SeedInBounds(p: Space, i: nat)
    requires |p.lo| == |p.hi| == 6 && (forall k | 0 <= k < 6 :: p.lo[k] <= p.hi[k])
    requires i < |SeededStarts(p, p.starts)|
    ensures InBounds(p, SeededStarts(p, p.starts)[i])
  {
    SeededInBounds(p, p.starts);
    assert SeededStarts(p, p.starts)[i] in SeededStarts(p, p.starts);
  }

  /** Between two turns: how many seeded starts were used, numbers drawn and points evaluated, and the best of those. */
  datatype Progress = Progress(taken: nat, drawn: nat, used: nat, best: Point, worst: real)

  /** After the turn that found `f`. */
  function Resumed(p: Space, now: Progress, f: Found): Progress
    requires |p.lo| == |p.hi| == 6
  {
    var seedTurn := now.taken < |SeededStarts(p, p.starts)|;
    Progress(if seedTurn then now.taken + 1 else now.taken, if seedTurn then now.drawn else now.drawn + 6,
             now.used + |f.tried|, if f.worst < now.worst then f.at else now.best, Min(f.worst, now.worst))
  }

  /** From a turn on. */
  ghost function SearchFrom(p: Space, draws: nat -> real, restart: Restarter, now: Progress): Found
    requires Searchable(p, draws) && Begins(restart)
    decreases p.evaluations - now.used
  {
    if now.used >= p.evaluations || now.worst <= p.tolerance then Found(now.best, now.worst, [])
    else
      var f := Turn(p, draws, restart, now);
      TurnBegins(p, draws, restart, now);
      SearchFrom(p, draws, restart, Resumed(p, now, f)).After(f.tried)
  }

  lemma TurnBegins(p: Space, draws: nat -> real, restart: Restarter, now: Progress)
    requires Searchable(p, draws) && Begins(restart)
    ensures Turn(p, draws, restart, now).tried != []
  {
  }

  function Beginning(p: Space): Progress
    requires |p.lo| == |p.hi| == 6
  {
    Progress(0, 0, 1, Midpoint(p), p.objective(Midpoint(p)))
  }

  /** The whole search: the midpoint, then seeded starts, then random restarts. */
  ghost function Search(p: Space, draws: nat -> real): Found
    requires Searchable(p, draws)
  {
    RestarterBegins(p);
    SearchFrom(p, draws, RestarterOf(p), Beginning(p)).After([Midpoint(p)])
  }

  lemma RestarterBegins(p: Space)
    ensures Begins(RestarterOf(p))
  {
    forall start, step, left
      ensures RestarterOf(p)(start, step, left).tried != []
    {
      assert RestarterOf(p)(start, step, left) == Restart(p, start, step, left);
    }
  }

  /** What a restart has to guarantee: it starts with its start, stays within its share and stops early only at a
      tolerable point or where no move of the last length tried improves. */
  ghost predicate RestartKeepsAt(p: Space, restart: Restarter, start: Point, step: seq<real>, left: int,
                                 trace: seq<Point>) {
    |step| == 6 && InBounds(p, start) && AllInBounds(p, trace) ==>
      var f := restart(start, step, left);
      && Tracks(p, trace + f.tried, |trace|, f.at, f.worst)
      && f.tried != [] && f.tried[0] == start && (|f.tried| == 1 || |f.tried| <= left)
      && (|f.tried| >= left || f.worst <= p.tolerance || Exhausted(p, f.at, step))
  }

  ghost predicate RestartsKeep(p: Space, restart: Restarter) {
    forall start, step, left, trace {:trigger RestartKeepsAt(p, restart, start, step, left, trace)} ::
      RestartKeepsAt(p, restart, start, step, left, trace)
  }

  lemma RestarterKeeps(p: Space)
    ensures RestartsKeep(p, RestarterOf(p))
  {
    forall start, step, left, trace
      ensures RestartKeepsAt(p, RestarterOf(p), start, step, left, trace)
    {
      if |step| == 6 && InBounds(p, start) && AllInBounds(p, trace) { RestartKeeps(p, start, step, left, trace); }
    }
  }

  lemma StartTracks(p: Space, start: Point, trace: seq<Point>)
    requires InBounds(p, start) && AllInBounds(p, trace)
    ensures Tracks(p, trace + [start], |trace|, start, p.objective(start))
  {
    assert FirstAt(p, trace + [start], |trace|, |trace|, start, p.objective(start));
  }

  lemma RestartKeeps(p: Space, start: Point, step: seq<real>, left: int, trace: seq<Point>)
    requires |step| == 6 && InBounds(p, start) && AllInBounds(p, trace)
    ensures RestartKeepsAt(p, RestarterOf(p), start, step, left, trace)
  {
    SweeperAdvances(p);
    SweeperKeeps(p);
    StartTracks(p, start, trace);
    var f := Descent(p.tolerance, SweeperOf(p), start, p.objective(start), step, left - 1);
    DescentKeeps(p, SweeperOf(p), start, p.objective(start), step, left - 1, |trace|, trace + [start]);
    BegunKeeps(p, RestarterOf(p), start, step, left, trace, f);
  }

  lemma BegunKeeps(p: Space, restart: Restarter, start: Point, step: seq<real>, left: int, trace: seq<Point>, f: Found)
    requires |step| == 6 && InBounds(p, start) && restart(start, step, left) == f.After([start])
    requires Keeps(p, trace + [start], |trace|, left - 1, f)
    requires |f.tried| >= left - 1 || f.worst <= p.tolerance || Exhausted(p, f.at, step)
    ensures RestartKeepsAt(p, restart, start, step, left, trace)
  {
    assert (trace + [start]) + f.tried == trace + ([start] + f.tried);
  }

  lemma BestOfBoth(p: Space, early: seq<Point>, later: seq<Point>, best: Point, bestWorst: real, at: Point, worst: real)
    requires Tracks(p, early, 0, best, bestWorst) && Tracks(p, early + later, |early|, at, worst)
    ensures Tracks(p, early + later, 0, if worst < bestWorst then at else best, Min(worst, bestWorst))
  {
    var trace := early + later;
    if worst < bestWorst {
      var i: nat :| FirstAt(p, trace, |early|, i, at, worst);
      assert FirstAt(p, trace, 0, i, at, worst) by {
        assert forall j | 0 <= j < |early| :: trace[j] == early[j];
      }
    } else {
      var i: nat :| FirstAt(p, early, 0, i, best, bestWorst);
      assert FirstAt(p, trace, 0, i, best, bestWorst);
    }
    forall j | 0 <= j < |trace|
      ensures p.objective(trace[j]) >= Min(worst, bestWorst)
    {
      if j < |early| { assert trace[j] == early[j]; }
    }
  }

  lemma TurnKeeps(p: Space, draws: nat -> real, restart: Restarter, now: Progress, trace: seq<Point>)
    requires Searchable(p, draws) && RestartsKeep(p, restart) && AllInBounds(p, trace)
    requires |trace| == now.used < p.evaluations
    ensures var f := Turn(p, draws, restart, now);
            var seeds := SeededStarts(p, p.starts);
            && Tracks(p, trace + f.tried, |trace|, f.at, f.worst) && now.used + |f.tried| <= p.evaluations
            && f.tried != []
            && (now.taken < |seeds| ==>
                  f.tried[0] == seeds[now.taken] && (|f.tried| == 1 || |f.tried| <= PerStart(p, |seeds|)))
  {
    var seeds := SeededStarts(p, p.starts);
    if now.taken < |seeds| {
      var start := seeds[now.taken];
      SeedInBounds(p, now.taken);
      assert RestartKeepsAt(p, restart, start, SeedStep(start), Share(p, |seeds|, now.used), trace);
    } else {
      var start := RandomStart(p, draws, now.drawn);
      assert RestartKeepsAt(p, restart, start, RandomStep(p), p.evaluations - now.used, trace);
    }
  }

  /** The progress of a search that evaluated these points. */
  ghost predicate Stands(p: Space, now: Progress, trace: seq<Point>) {
    |trace| == now.used && Tracks(p, trace, 0, now.best, now.worst)
  }

  /** A search ends at the best of all points, within its budget, and gives up only with the budget spent. */
  ghost predicate Ends(p: Space, now: Progress, trace: seq<Point>, f: Found) {
    && Tracks(p, trace + f.tried, 0, f.at, f.worst) && f.worst <= now.worst
    && (f.tried == [] || now.used + |f.tried| <= p.evaluations)
    && (f.worst > p.tolerance ==> now.used + |f.tried| >= p.evaluations)
    && (now.worst <= p.tolerance ==> f.tried == [])
  }

  lemma EndsAfter(p: Space, now: Progress, f: Found, rest: Found, trace: seq<Point>)
    requires |p.lo| == |p.hi| == 6 && now.used + |f.tried| <= p.evaluations && now.worst > p.tolerance
    requires Ends(p, Resumed(p, now, f), trace + f.tried, rest)
    ensures Ends(p, now, trace, rest.After(f.tried))
  {
    assert (trace + f.tried) + rest.tried == trace + (f.tried + rest.tried);
  }

  lemma {:induction false} SearchKeeps(p: Space, draws: nat -> real, restart: Restarter, now: Progress,
                                       trace: seq<Point>)
    requires Searchable(p, draws) && Begins(restart) && RestartsKeep(p, restart) && Stands(p, now, trace)
    ensures Ends(p, now, trace, SearchFrom(p, draws, restart, now))
    decreases p.evaluations - now.used
  {
    if now.used >= p.evaluations || now.worst <= p.tolerance {
      assert trace + [] == trace;
    } else {
      var f := Turn(p, draws, restart, now);
      TurnKeeps(p, draws, restart, now, trace);
      BestOfBoth(p, trace, f.tried, now.best, now.worst, f.at, f.worst);
      SearchKeeps(p, draws, restart, Resumed(p, now, f), trace + f.tried);
      EndsAfter(p, now, f, SearchFrom(p, draws, restart, Resumed(p, now, f)), trace);
    }
  }

  lemma SearchGoesOn(p: Space, draws: nat -> real, restart: Restarter, now: Progress)
    requires Searchable(p, draws) && Begins(restart) && now.used < p.evaluations && now.worst > p.tolerance
    ensures var f := Turn(p, draws, restart, now);
            var all, rest := SearchFrom(p, draws, restart, now), SearchFrom(p, draws, restart, Resumed(p, now, f));
            all.worst == rest.worst && all.tried == f.tried + rest.tried
  {
  }

  /** The turn of the i-th seeded start is still to come, and its share is not spent. */
  ghost predicate Awaits(p: Space, now: Progress, i: nat)
    requires |p.lo| == |p.hi| == 6
  {
    var n := |SeededStarts(p, p.starts)|;
    now.taken <= i < n && ShareReaches(p, n, i) && now.used <= 1 + now.taken * PerStart(p, n)
  }

  lemma StillAwaits(p: Space, now: Progress, i: nat, f: Found)
    requires |p.lo| == |p.hi| == 6 && Awaits(p, now, i) && now.taken < i
    requires |f.tried| == 1 || |f.tried| <= PerStart(p, |SeededStarts(p, p.starts)|)
    ensures Awaits(p, Resumed(p, now, f), i)
  {
    NextShare(now.taken, PerStart(p, |SeededStarts(p, p.starts)|));
  }

  /** A search that gives up has evaluated every seeded start whose share came. */
  lemma {:induction false} SeedsAreTried(p: Space, draws: nat -> real, restart: Restarter, now: Progress,
                                         trace: seq<Point>, i: nat)
    requires Searchable(p, draws) && Begins(restart) && RestartsKeep(p, restart) && Stands(p, now, trace)
    requires Awaits(p, now, i) && SearchFrom(p, draws, restart, now).worst > p.tolerance
    ensures SeededStarts(p, p.starts)[i] in SearchFrom(p, draws, restart, now).tried
    decreases p.evaluations - now.used
  {
    SearchKeeps(p, draws, restart, now, trace);
    ShareMonotone(now.taken, i, PerStart(p, |SeededStarts(p, p.starts)|));
    SearchGoesOn(p, draws, restart, now);
    var f := Turn(p, draws, restart, now);
    TurnKeeps(p, draws, restart, now, trace);
    if now.taken == i {
      assert f.tried[0] in f.tried;
    } else {
      BestOfBoth(p, trace, f.tried, now.best, now.worst, f.at, f.worst);
      StillAwaits(p, now, i, f);
      SeedsAreTried(p, draws, restart, Resumed(p, now, f), trace + f.tried, i);
    }
  }

  /** The guarantees of the whole search. */
  lemma SearchGuarantees(p: Space, draws: nat -> real)
    requires Searchable(p, draws)
    ensures var f := Search(p, draws);
            && Tracks(p, f.tried, 0, f.at, f.worst) && 1 <= |f.tried| <= Budget(p)
            && f.tried[0] == Midpoint(p)
            && (p.objective(Midpoint(p)) <= p.tolerance ==> |f.tried| == 1)
            && (f.worst > p.tolerance ==> |f.tried| == Budget(p))
  {
    var mid := Midpoint(p);
    StartTracks(p, mid, []);
    assert [] + [mid] == [mid];
    RestarterBegins(p);
    RestarterKeeps(p);
    SearchKeeps(p, draws, RestarterOf(p), Beginning(p), [mid]);
  }

  lemma SeedsComeUp(p: Space, draws: nat -> real, i: nat)
    requires Searchable(p, draws) && Search(p, draws).worst > p.tolerance
    requires i < |SeededStarts(p, p.starts)| && ShareReaches(p, |SeededStarts(p, p.starts)|, i)
    ensures SeededStarts(p, p.starts)[i] in Search(p, draws).tried
  {
    var mid := Midpoint(p);
    StartTracks(p, mid, []);
    assert [] + [mid] == [mid];
    RestarterBegins(p);
    RestarterKeeps(p);
    SeedsAreTried(p, draws, RestarterOf(p), Beginning(p), [mid], i);
  }

  // ---- the loops ----------------------------------------------------------------------------------------------

  /** Both directions along one axis; the first improvement is taken. */
  method TryAxis(p: Space, start: Point, worst0: real, axis: nat, reach: real, deadline: int, used0: nat)
    returns (at: Point, worst: real, used: nat, ghost tried: seq<Point>)
    requires axis < |start| == |p.lo| == |p.hi| && used0 < deadline
    ensures Found(at, worst, tried) == AxisMove(p, start, worst0, axis, reach, deadline - used0)
    ensures used == used0 + |tried|
  {
    at, worst, used, tried := start, worst0, used0, [];
    ghost var lower := Probe(p, start, worst0, axis, -reach, deadline - used0);
    var d, moved := 0, false;
    while d < 2 && used < deadline && !moved
      invariant 0 <= d <= 2 && used == used0 + |tried| <= deadline
      invariant d == 0 ==> Found(at, worst, tried) == Found(start, worst0, []) && !moved
      invariant d == 1 ==> Found(at, worst, tried) == lower && (moved <==> lower.worst < worst0)
      invariant d == 2 ==> Found(at, worst, tried) == AxisMove(p, start, worst0, axis, reach, deadline - used0)
    {
      var candidate := Candidate(p, start, axis, if d == 0 then -reach else reach);
      if candidate[axis] != start[axis] {
        var trial := p.objective(candidate);
        tried := tried + [candidate];
        used := used + 1;
        if trial < worst { at, worst, moved := candidate, trial, true; }
      }
      d := d + 1;
    }
    assert tried + [] == tried;
  }

  /** `all` is what is found from here on, after the points `earlier`. */
  ghost predicate GoesOn(all: Found, rest: Found, earlier: seq<Point>) {
    all == rest.After(earlier)
  }

  lemma GoesOnFrom(all: Found, f: Found, rest: Found, earlier: seq<Point>)
    requires GoesOn(all, rest.After(f.tried), earlier)
    ensures GoesOn(all, rest, earlier + f.tried)
  {
    assert (earlier + f.tried) + rest.tried == earlier + (f.tried + rest.tried);
  }

  lemma Arrived(all: Found, at: Point, worst: real, earlier: seq<Point>)
    requires GoesOn(all, Found(at, worst, []), earlier)
    ensures all == Found(at, worst, earlier)
  {
    assert earlier + [] == earlier;
  }

  /** One axis of a sweep; an axis without a step is passed over. */
  function Stepped(move: Mover, at: Point, worst: real, step: seq<real>, left: int, axis: nat): Found
    requires axis < |step|
  {
    if step[axis] <= 0.0 then Found(at, worst, []) else move(at, worst, axis, step[axis], left)
  }

  lemma SweepStep(move: Mover, at: Point, worst: real, step: seq<real>, left: int, axis: nat, all: Found,
                  earlier: seq<Point>)
    requires axis < |step| && left > 0 && GoesOn(all, Sweep(move, at, worst, step, left, axis), earlier)
    ensures var f := Stepped(move, at, worst, step, left, axis);
            GoesOn(all, Sweep(move, f.at, f.worst, step, left - |f.tried|, axis + 1), earlier + f.tried)
  {
    var f := Stepped(move, at, worst, step, left, axis);
    var rest := Sweep(move, f.at, f.worst, step, left - |f.tried|, axis + 1);
    if step[axis] <= 0.0 { assert [] + rest.tried == rest.tried; }
    GoesOnFrom(all, f, rest, earlier);
  }

  lemma SweepOver(move: Mover, at: Point, worst: real, step: seq<real>, left: int, axis: nat, all: Found,
                  earlier: seq<Point>)
    requires axis <= |step| && (axis == |step| || left <= 0)
    requires GoesOn(all, Sweep(move, at, worst, step, left, axis), earlier)
    ensures all == Found(at, worst, earlier)
  {
    Arrived(all, at, worst, earlier);
  }

  /** The values of `move` are the moves of the search; stated at named arguments, so that a sweep need not look
      into them. */
  ghost predicate MovesAt(p: Space, move: Mover, at: Point, worst: real, axis: nat, reach: real, left: int) {
    |at| == |p.lo| == |p.hi| == 6 && axis < 6 ==>
      move(at, worst, axis, reach, left) == AxisMove(p, at, worst, axis, reach, left)
  }

  ghost predicate Moves(p: Space, move: Mover) {
    forall at, worst, axis: nat, reach, left {:trigger MovesAt(p, move, at, worst, axis, reach, left)} ::
      MovesAt(p, move, at, worst, axis, reach, left)
  }

  lemma MoverMoves(p: Space)
    ensures Moves(p, MoverOf(p))
  {
  }

  /** One axis of a sweep. */
  method SweepAxis(p: Space, ghost move: Mover, start: Point, worst0: real, step: seq<real>, axis: nat, deadline: int,
                   used0: nat)
    returns (at: Point, worst: real, used: nat, ghost tried: seq<Point>)
    requires Moves(p, move) && axis < |step| == |start| == |p.lo| == |p.hi| == 6 && used0 < deadline
    ensures Found(at, worst, tried) == Stepped(move, start, worst0, step, deadline - used0, axis)
    ensures used == used0 + |tried| && |at| == 6 && worst <= worst0
  {
    if step[axis] <= 0.0 { return start, worst0, used0, []; }
    at, worst, used, tried := TryAxis(p, start, worst0, axis, step[axis], deadline, used0);
    assert MovesAt(p, move, start, worst0, axis, step[axis], deadline - used0);
  }

  /** Each axis once, from the best point found so far. */
  method SweepAxes(p: Space, ghost move: Mover, start: Point, worst0: real, step: seq<real>, deadline: int, used0: nat)
    returns (at: Point, worst: real, used: nat, ghost tried: seq<Point>, improved: bool)
    requires Moves(p, move) && |step| == |start| == |p.lo| == |p.hi| == 6 && used0 < deadline
    ensures Found(at, worst, tried) == Sweep(move, start, worst0, step, deadline - used0, 0)
    ensures used == used0 + |tried| && improved == (worst < worst0) && |at| == 6
  {
    at, worst, used, tried, improved := start, worst0, used0, [], false;
    ghost var all := Sweep(move, start, worst0, step, deadline - used0, 0);
    assert [] + all.tried == all.tried;
    var axis := 0;
    while axis < 6 && used < deadline
      invariant 0 <= axis <= 6 && |at| == 6 && used == used0 + |tried|
      invariant GoesOn(all, Sweep(move, at, worst, step, deadline - used, axis), tried)
      invariant worst <= worst0 && improved == (worst < worst0)
    {
      SweepStep(move, at, worst, step, deadline - used, axis, all, tried);
      ghost var more;
      var next;
      at, next, used, more := SweepAxis(p, move, at, worst, step, axis, deadline, used);
      tried := tried + more;
      improved := improved || next < worst;
      worst, axis := next, axis + 1;
    }
    SweepOver(move, at, worst, step, deadline - used, axis, all, tried);
  }

  ghost predicate SweepsAt(p: Space, sweep: Sweeper, at: Point, worst: real, step: seq<real>, left: int) {
    sweep(at, worst, step, left) == Sweep(MoverOf(p), at, worst, step, left, 0)
  }

  ghost predicate Sweeps(p: Space, sweep: Sweeper) {
    forall at, worst, step, left {:trigger SweepsAt(p, sweep, at, worst, step, left)} ::
      SweepsAt(p, sweep, at, worst, step, left)
  }

  lemma SweeperSweeps(p: Space)
    ensures Sweeps(p, SweeperOf(p))
  {
  }

  lemma DescentStep(tolerance: real, sweep: Sweeper, at: Point, worst: real, step: seq<real>, left: int, all: Found,
                    earlier: seq<Point>)
    requires Advances(sweep) && step != [] && left > 0 && Largest(step) > 0.0001 && worst > tolerance
    requires GoesOn(all, Descent(tolerance, sweep, at, worst, step, left), earlier)
    ensures var f := sweep(at, worst, step, left);
            GoesOn(all, Descent(tolerance, sweep, f.at, f.worst, if f.worst < worst then step else Halved(step),
                                left - |f.tried|), earlier + f.tried)
    ensures var f := sweep(at, worst, step, left); f.worst < worst ==> f.tried != []
  {
    var f := sweep(at, worst, step, left);
    if f.worst < worst {
      GoesOnFrom(all, f, Descent(tolerance, sweep, f.at, f.worst, step, left - |f.tried|), earlier);
    } else {
      GoesOnFrom(all, f, Descent(tolerance, sweep, f.at, f.worst, Halved(step), left - |f.tried|), earlier);
    }
  }

  lemma DescentOver(tolerance: real, sweep: Sweeper, at: Point, worst: real, step: seq<real>, left: int, all: Found,
                    earlier: seq<Point>)
    requires Advances(sweep) && step != [] && (left <= 0 || Largest(step) <= 0.0001 || worst <= tolerance)
    requires GoesOn(all, Descent(tolerance, sweep, at, worst, step, left), earlier)
    ensures all == Found(at, worst, earlier)
  {
    Arrived(all, at, worst, earlier);
  }

  /** One sweep of a descent. */
  method SweepOnce(p: Space, ghost sweep: Sweeper, start: Point, worst0: real, step: seq<real>, deadline: int,
                   used0: nat)
    returns (at: Point, worst: real, used: nat, ghost tried: seq<Point>, improved: bool)
    requires Sweeps(p, sweep) && |step| == |start| == |p.lo| == |p.hi| == 6 && used0 < deadline
    ensures Found(at, worst, tried) == sweep(start, worst0, step, deadline - used0)
    ensures used == used0 + |tried| && improved == (worst < worst0) && |at| == 6
  {
    MoverMoves(p);
    at, worst, used, tried, improved := SweepAxes(p, MoverOf(p), start, worst0, step, deadline, used0);
    assert SweepsAt(p, sweep, start, worst0, step, deadline - used0);
  }

  /** One sweep, and the step for the next one; `all` and `tried` are what the whole descent finds and has tried. */
  method SweepOrHalve(p: Space, ghost sweep: Sweeper, start: Point, worst0: real, step: seq<real>, deadline: int,
                      used0: nat, ghost all: Found, ghost tried0: seq<Point>)
    returns (at: Point, worst: real, used: nat, next: seq<real>, ghost tried: seq<Point>)
    requires Sweeps(p, sweep) && Advances(sweep) && |step| == |start| == |p.lo| == |p.hi| == 6
    requires used0 < deadline && Largest(step) > 0.0001 && worst0 > p.tolerance
    requires GoesOn(all, Descent(p.tolerance, sweep, start, worst0, step, deadline - used0), tried0)
    ensures |at| == |next| == 6 && used - used0 == |tried| - |tried0|
    ensures GoesOn(all, Descent(p.tolerance, sweep, at, worst, next, deadline - used), tried)
    ensures used0 < used || (used == used0 && HalvingsLeft(Largest(next)) < HalvingsLeft(Largest(step)))
  {
    ghost var more;
    var improved;
    DescentStep(p.tolerance, sweep, start, worst0, step, deadline - used0, all, tried0);
    at, worst, used, more, improved := SweepOnce(p, sweep, start, worst0, step, deadline, used0);
    tried := tried0 + more;
    LargestHalves(step);
    HalvingsFall(Largest(step));
    next := if improved then step else Halved(step);
  }

  /** Sweep with a shrinking step. */
  method DescendFrom(p: Space, ghost sweep: Sweeper, start: Point, worst0: real, firstStep: seq<real>, deadline: int,
                     used0: nat)
    returns (at: Point, worst: real, used: nat, ghost tried: seq<Point>)
    requires |firstStep| == |start| == |p.lo| == |p.hi| == 6 && Sweeps(p, sweep) && Advances(sweep)
    ensures Found(at, worst, tried) == Descent(p.tolerance, sweep, start, worst0, firstStep, deadline - used0)
    ensures used == used0 + |tried|
  {
    at, worst, used, tried := start, worst0, used0, [];
    ghost var all := Descent(p.tolerance, sweep, start, worst0, firstStep, deadline - used0);
    assert [] + all.tried == all.tried;
    var step := firstStep;
    while used < deadline && Largest(step) > 0.0001 && worst > p.tolerance
      invariant |step| == |at| == 6 && used == used0 + |tried|
      invariant GoesOn(all, Descent(p.tolerance, sweep, at, worst, step, deadline - used), tried)
      decreases deadline - used, HalvingsLeft(Largest(step))
    {
      at, worst, used, step, tried := SweepOrHalve(p, sweep, at, worst, step, deadline, used, all, tried);
    }
    DescentOver(p.tolerance, sweep, at, worst, step, deadline - used, all, tried);
  }

  /** One restart: evaluate the start, then descend from it. */
  method Descend(p: Space, from: Point, firstStep: seq<real>, deadline: int, used0: nat)
    returns (at: Point, worst: real, used: nat, ghost tried: seq<Point>)
    requires |firstStep| == |from| == |p.lo| == |p.hi| == 6
    ensures Found(at, worst, tried) == Restart(p, from, firstStep, deadline - used0)
    ensures used == used0 + |tried|
  {
    SweeperAdvances(p);
    SweeperSweeps(p);
    at, worst, used, tried := DescendFrom(p, SweeperOf(p), from, p.objective(from), firstStep, deadline, used0 + 1);
    tried := [from] + tried;
  }

  ghost predicate RestartsAt(p: Space, restart: Restarter, start: Point, step: seq<real>, left: int) {
    restart(start, step, left) == Restart(p, start, step, left)
  }

  ghost predicate Restarts(p: Space, restart: Restarter) {
    forall start, step, left {:trigger RestartsAt(p, restart, start, step, left)} ::
      RestartsAt(p, restart, start, step, left)
  }

  lemma RestarterRestarts(p: Space)
    ensures Restarts(p, RestarterOf(p))
  {
  }

  method RestartFrom(p: Space, ghost restart: Restarter, start: Point, step: seq<real>, deadline: int, used0: nat)
    returns (at: Point, worst: real, used: nat, ghost tried: seq<Point>)
    requires Restarts(p, restart) && |step| == |start| == |p.lo| == |p.hi| == 6
    ensures Found(at, worst, tried) == restart(start, step, deadline - used0) && used == used0 + |tried|
  {
    at, worst, used, tried := Descend(p, start, step, deadline, used0);
    assert RestartsAt(p, restart, start, step, deadline - used0);
  }

  /** A seeded start while there are any, with a share of the budget; else a random one with the rest of it. */
  method TakeTurn(p: Space, ghost restart: Restarter, starts: seq<Point>, draws: nat -> real, now: Progress)
    returns (at: Point, worst: real, used: nat, ghost tried: seq<Point>)
    requires Searchable(p, draws) && Restarts(p, restart) && starts == SeededStarts(p, p.starts)
    ensures Found(at, worst, tried) == Turn(p, draws, restart, now) && used == now.used + |tried|
  {
    if now.taken < |starts| {
      SeedInBounds(p, now.taken);
      var start := starts[now.taken];
      var share := Share(p, |starts|, now.used);
      at, worst, used, tried := RestartFrom(p, restart, start, SeedStep(start), now.used + share, now.used);
    } else {
      var start := RandomStart(p, draws, now.drawn);
      at, worst, used, tried := RestartFrom(p, restart, start, RandomStep(p), p.evaluations, now.used);
    }
  }

  /** The progress after one turn. */
  method NextTurn(p: Space, ghost restart: Restarter, starts: seq<Point>, draws: nat -> real, now: Progress)
    returns (next: Progress, ghost tried: seq<Point>)
    requires Searchable(p, draws) && Restarts(p, restart) && starts == SeededStarts(p, p.starts)
    ensures next == Resumed(p, now, Turn(p, draws, restart, now)) && tried == Turn(p, draws, restart, now).tried
  {
    var at, worst, used;
    at, worst, used, tried := TakeTurn(p, restart, starts, draws, now);
    var seedTurn := now.taken < |starts|;
    next := Progress(if seedTurn then now.taken + 1 else now.taken, if seedTurn then now.drawn else now.drawn + 6, used,
                     if worst < now.worst then at else now.best, Min(worst, now.worst));
  }

  lemma SearchStep(p: Space, draws: nat -> real, restart: Restarter, now: Progress, all: Found, earlier: seq<Point>)
    requires Searchable(p, draws) && Begins(restart) && now.used < p.evaluations && now.worst > p.tolerance
    requires GoesOn(all, SearchFrom(p, draws, restart, now), earlier)
    ensures var f := Turn(p, draws, restart, now);
            && now.used < Resumed(p, now, f).used == now.used + |f.tried|
            && GoesOn(all, SearchFrom(p, draws, restart, Resumed(p, now, f)), earlier + f.tried)
  {
    var f := Turn(p, draws, restart, now);
    TurnBegins(p, draws, restart, now);
    GoesOnFrom(all, f, SearchFrom(p, draws, restart, Resumed(p, now, f)), earlier);
  }

  lemma SearchOver(p: Space, draws: nat -> real, restart: Restarter, now: Progress, all: Found, earlier: seq<Point>)
    requires Searchable(p, draws) && Begins(restart) && (now.used >= p.evaluations || now.worst <= p.tolerance)
    requires GoesOn(all, SearchFrom(p, draws, restart, now), earlier)
    ensures all == Found(now.best, now.worst, earlier)
  {
    Arrived(all, now.best, now.worst, earlier);
  }

  /** Seeded starts first, then random restarts, until the budget or the objective allows no more. */
  method RunSearch(p: Space, ghost restart: Restarter, draws: nat -> real)
    returns (last: Progress, ghost tried: seq<Point>)
    requires Searchable(p, draws) && Begins(restart) && Restarts(p, restart)
    ensures Found(last.best, last.worst, tried) == SearchFrom(p, draws, restart, Beginning(p)).After([Midpoint(p)])
    ensures last.used == |tried|
  {
    var starts := SeededStarts(p, p.starts);
    last := Beginning(p);
    tried := [Midpoint(p)];
    ghost var all := SearchFrom(p, draws, restart, last).After(tried);
    while last.used < p.evaluations && last.worst > p.tolerance
      invariant last.used == |tried| && GoesOn(all, SearchFrom(p, draws, restart, last), tried)
      decreases p.evaluations - last.used
    {
      SearchStep(p, draws, restart, last, all, tried);
      ghost var more;
      last, more := NextTurn(p, restart, starts, draws, last);
      tried := tried + more;
    }
    SearchOver(p, draws, restart, last, all, tried);
  }

  // ---- the answer -------------------------------------------------------------------------------------------------

  datatype Answer = Answer(feasible: bool, objective: real, box: Point, binding: seq<Row>, evaluations: nat)

  /** The largest residual over the rows, searched in the bounds of the problem. */
  function SpaceOf(p: Problem): Space {
    Space((at: Point) => Objective(p, at), p.lo, p.hi, p.evaluations, p.tolerance, p.starts)
  }

  lemma AnswerMeaning(p: Problem, trace: seq<Point>, best: Point, worst: real)
    requires 0.0 <= p.tolerance < OFF_FRUSTUM_RESIDUAL && BestSince(SpaceOf(p), trace, 0, best, worst)
    ensures worst <= p.tolerance <==> Satisfies(p, best)
    ensures worst <= p.tolerance <==> exists i | 0 <= i < |trace| :: Satisfies(p, trace[i])
  {
    forall i | 0 <= i < |trace|
      ensures SpaceOf(p).objective(trace[i]) <= p.tolerance <==> Satisfies(p, trace[i])
    {
      ObjectiveMeaning(p, trace[i]);
    }
    ObjectiveMeaning(p, best);
  }

  lemma AcceptedIsSearchable(p: Problem, draws: nat -> real)
    requires Validation(p).None? && forall n :: 0.0 <= draws(n) < 1.0
    ensures Searchable(SpaceOf(p), draws)
  {
  }

  /** Feasible exactly when some evaluated point satisfies every row; otherwise the budget is spent, and every seeded
      start whose share came was evaluated. */
  ghost predicate Decides(p: Problem, trace: seq<Point>, answer: Answer)
    requires |p.lo| == |p.hi| == 6
  {
    var s := SpaceOf(p);
    var seeds := SeededStarts(s, p.starts);
    && Tracks(s, trace, 0, answer.box, answer.objective)
    && 1 <= |trace| == answer.evaluations <= Budget(s) && trace[0] == Midpoint(s)
    && answer.feasible == (answer.objective <= p.tolerance)
    && (0.0 <= p.tolerance < OFF_FRUSTUM_RESIDUAL ==>
          && (answer.feasible <==> Satisfies(p, answer.box))
          && (answer.feasible <==> exists i | 0 <= i < |trace| :: Satisfies(p, trace[i])))
    && (s.objective(Midpoint(s)) <= p.tolerance ==> |trace| == 1)
    && (!answer.feasible ==> |trace| == Budget(s))
    && (!answer.feasible ==> forall i: nat | i < |seeds| && ShareReaches(s, |seeds|, i) :: seeds[i] in trace)
  }

  lemma SearchDecides(p: Problem, draws: nat -> real, answer: Answer)
    requires Searchable(SpaceOf(p), draws)
    requires var f := Search(SpaceOf(p), draws);
             answer.box == f.at && answer.objective == f.worst && answer.evaluations == |f.tried|
             && answer.feasible == (f.worst <= p.tolerance)
    ensures Decides(p, Search(SpaceOf(p), draws).tried, answer)
  {
    var s := SpaceOf(p);
    var f := Search(s, draws);
    var seeds := SeededStarts(s, p.starts);
    SearchGuarantees(s, draws);
    if 0.0 <= p.tolerance < OFF_FRUSTUM_RESIDUAL { AnswerMeaning(p, f.tried, f.at, f.worst); }
    if f.worst > p.tolerance {
      forall i: nat | i < |seeds| && ShareReaches(s, |seeds|, i)
        ensures seeds[i] in f.tried
      {
        SeedsComeUp(s, draws, i);
      }
    }
  }

  lemma FeasibleInImage(p: Problem, trace: seq<Point>, answer: Answer)
    requires WellPosed(p) && 0.0 <= p.tolerance < OFF_FRUSTUM_RESIDUAL && Decides(p, trace, answer)
    ensures forall camera | Projects(p, camera) ::
              && (answer.feasible <==> FitsAll(p, camera, answer.box))
              && (answer.feasible <==> exists i | 0 <= i < |trace| :: FitsAll(p, camera, trace[i]))
  {
    forall camera: Camera, at | Projects(p, camera)
      ensures Satisfies(p, at) <==> FitsAll(p, camera, at)
    {
      SatisfiesIff(p, camera, at);
    }
  }

  /** The search raises exactly on an invalid problem; otherwise it evaluates the points of the search function, in
      order, and answers with the best of them. */
  method SolveBoxFeasibility(p: Problem, draws: nat -> real)
    returns (answer: Result<Answer, Invalid>, ghost trace: seq<Point>)
    requires forall n :: 0.0 <= draws(n) < 1.0
    ensures answer.Err? <==> !WellPosed(p)
    ensures answer.Err? ==> Some(answer.error) == Validation(p)
    ensures answer.Ok? ==>
              && Searchable(SpaceOf(p), draws) && trace == Search(SpaceOf(p), draws).tried
              && answer.value.box == Search(SpaceOf(p), draws).at
              && answer.value.binding == Binding(p, p.rows, answer.value.box)
              && Decides(p, trace, answer.value)
    // In the image: feasible means that the returned box, equivalently some evaluated one, fits every row.
    ensures answer.Ok? && 0.0 <= p.tolerance < OFF_FRUSTUM_RESIDUAL ==>
              forall camera | Projects(p, camera) ::
                && (answer.value.feasible <==> FitsAll(p, camera, answer.value.box))
                && (answer.value.feasible <==> exists i | 0 <= i < |trace| :: FitsAll(p, camera, trace[i]))
  {
    ValidIff(p);
    trace := [];
    var invalid := Validation(p);
    if invalid.Some? { return Err(invalid.value), []; }
    var s := SpaceOf(p);
    AcceptedIsSearchable(p, draws);
    RestarterBegins(s);
    RestarterRestarts(s);
    var last;
    last, trace := RunSearch(s, RestarterOf(s), draws);
    var binding := Binding(p, p.rows, last.best);
    var reply := Answer(last.worst <= p.tolerance, last.worst, last.best, binding, last.used);
    SearchDecides(p, draws, reply);
    if 0.0 <= p.tolerance < OFF_FRUSTUM_RESIDUAL { FeasibleInImage(p, trace, reply); }
    answer := Ok(reply);
  }
}
