/**
  The restart loop: pass after pass until the layers complete, a stage may not be answered, it prepared no
  stop, or the controller refuses.

  `Turns` is the loop with its pass and its controller as parameters; what every run keeps is proved there once,
  and instantiated with the driver's pass and the controller's answer.
 */
module RunLoop {
  import opened Common
  import opened DagOrder
  import opened RunController
  import opened RunDriver

  datatype RunEnd =
    | Finished
    | NothingInRange
    | Unanswerable          // the stopped stage is not given to the controller
    | Unprepared            // it left no stop envelope
    | DispatchRefused(reason: Reason)

  datatype Turns = Turns(
    pass: (nat, World) -> (World, PassEnd),
    prepared: nat -> Option<Envelope>,
    answer: (nat, Ledger) -> (Ledger, Decision),
    revokes: nat -> set<int>,
    caps: Caps)
  {
    /** What the controller does to the ledger at the n-th stop. */
    ghost predicate KeepsAt(n: nat, l: Ledger)
      requires prepared(n).Some?
    {
      var (l', decision) := answer(n, l);
      && AnswerKeeps(l, prepared(n).value, l', decision)
      && (decision.Dispatched? ==>
            && |l.rows| < caps.maxDispatches
            && |LayerPositions(l.rows, decision.row.layer)| < caps.maxPerLayer
            && !Recorded(l.attempts, prepared(n).value.fingerprint))
    }

    ghost predicate Keep() {
      forall n: nat, l: Ledger {:trigger KeepsAt(n, l)} | prepared(n).Some? :: KeepsAt(n, l)
    }

    /** Why the run ends with this pass, if it does before asking the controller. */
    function EndsAt(n: nat, end: PassEnd): Option<RunEnd> {
      if end.Completed? then Some(Finished)
      else if !end.dispatchable then Some(Unanswerable)
      else if prepared(n).None? then Some(Unprepared)
      else None
    }

    function Revoked(n: nat, w: World): World {
      w.(current := w.current - revokes(n))
    }

    /** Dispatches the run cap leaves. */
    function Left(l: Ledger): nat {
      if |l.rows| < caps.maxDispatches then caps.maxDispatches - |l.rows| else 0
    }

    /** The passes from the n-th on; the last result is the number of passes made. */
    ghost function From(n: nat, w: World, l: Ledger): (World, Ledger, RunEnd, nat)
      requires Keep()
      decreases Left(l)
    {
      var (w', end) := pass(n, w);
      if EndsAt(n, end).Some? then (w', l, EndsAt(n, end).value, n + 1)
      else
        var (l', decision) := answer(n, l);
        assert KeepsAt(n, l);
        if decision.Refused? then (w', l', DispatchRefused(decision.reason), n + 1)
        else From(n + 1, Revoked(n, w'), l')
    }

    /** Another pass follows the n-th. */
    ghost predicate GoesOn(n: nat, w: World, l: Ledger) {
      EndsAt(n, pass(n, w).1).None? && answer(n, l).1.Dispatched?
    }

    ghost function NextWorld(n: nat, w: World): World {
      Revoked(n, pass(n, w).0)
    }
  }

  // ---- what every run keeps -----------------------------------------------------------------------------

  /** Termination, counted: one pass more than rows appended, so at most one more than the cap leaves. */
  lemma {:induction false} PassesAreBounded(t: Turns, n: nat, w: World, l: Ledger)
    requires t.Keep()
    ensures var (w', l', end, passes) := t.From(n, w, l);
            && l.rows <= l'.rows
            && passes == n + 1 + |l'.rows| - |l.rows| <= n + 1 + t.Left(l)
    decreases t.Left(l)
  {
    if t.prepared(n).Some? { assert t.KeepsAt(n, l); }
    if t.GoesOn(n, w, l) {
      PassesAreBounded(t, n + 1, t.NextWorld(n, w), t.answer(n, l).0);
    }
  }

  /** The last pass of a run, from what it found, and the reason it gives for the end. */
  ghost predicate LastTurn(t: Turns, m: nat, v: World, k: Ledger, w': World, l': Ledger, end: RunEnd) {
    var (after, stop) := t.pass(m, v);
    && w' == after
    && match end
       case NothingInRange => false
       case Finished => stop.Completed? && l' == k
       case Unanswerable => stop == Stopped(false) && l' == k
       case Unprepared => stop == Stopped(true) && t.prepared(m).None? && l' == k
       case DispatchRefused(reason) =>
         stop == Stopped(true) && t.prepared(m).Some? && t.answer(m, k) == (l', Decision.Refused(reason))
  }

  /** A run ends for the reason its last pass gives: completed, or stopped where the controller is not asked, left no
      stop for it, or refused by it. */
  lemma {:induction false} RunEndsWithItsLastTurn(t: Turns, n: nat, w: World, l: Ledger)
    returns (v: World, k: Ledger)
    requires t.Keep()
    ensures var (w', l', end, passes) := t.From(n, w, l);
            passes > n && LastTurn(t, passes - 1, v, k, w', l', end)
    decreases t.Left(l)
  {
    if t.prepared(n).Some? { assert t.KeepsAt(n, l); }
    if t.GoesOn(n, w, l) {
      v, k := RunEndsWithItsLastTurn(t, n + 1, t.NextWorld(n, w), t.answer(n, l).0);
    } else {
      v, k := w, l;
    }
  }

  /** Rows stay within both caps and attempts keep pairwise distinct fingerprints. */
  lemma {:induction false} RunKeepsLimits(t: Turns, n: nat, w: World, l: Ledger)
    requires t.Keep() && WithinCaps(l.rows, t.caps) && DistinctFingerprints(l.attempts)
    ensures WithinCaps(t.From(n, w, l).1.rows, t.caps) && DistinctFingerprints(t.From(n, w, l).1.attempts)
    decreases t.Left(l)
  {
    if t.prepared(n).Some? { assert t.KeepsAt(n, l); }
    if t.GoesOn(n, w, l) {
      DispatchKeepsCaps(l.rows, t.answer(n, l).1.row, t.caps);
      FreshFingerprint(l.attempts, AttemptOf(t.prepared(n).value));
      RunKeepsLimits(t, n + 1, t.NextWorld(n, w), t.answer(n, l).0);
    }
  }

  /** Archives only under the indices of rows. */
  ghost predicate ArchiveWithinRows(l: Ledger) {
    forall k | k in l.archive :: 1 <= k <= |l.rows|
  }

  lemma {:induction false} RunKeepsArchive(t: Turns, n: nat, w: World, l: Ledger, i: nat)
    requires t.Keep() && ArchiveWithinRows(l) && i in l.archive
    ensures i in t.From(n, w, l).1.archive && t.From(n, w, l).1.archive[i] == l.archive[i]
    decreases t.Left(l)
  {
    if t.prepared(n).Some? { assert t.KeepsAt(n, l); }
    if t.GoesOn(n, w, l) {
      RunKeepsArchive(t, n + 1, t.NextWorld(n, w), t.answer(n, l).0, i);
    }
  }

  /** The stop of the k-th pass of a run whose n-th pass found `rows` rows. */
  ghost predicate StopConserved(t: Turns, n: nat, k: nat, rows: nat, l': Ledger, end: RunEnd, passes: nat)
    requires n <= k
  {
    && (k < passes - 1 ==>
          t.prepared(k).Some? && rows + 1 + k - n in l'.archive && l'.archive[rows + 1 + k - n] == t.prepared(k).value)
    && (k == passes - 1 && end.DispatchRefused? ==>
          t.prepared(k).Some? && ConservedIn(l', t.prepared(k).value, rows + 1 + k - n))
  }

  lemma TurnArchives(t: Turns, n: nat, l: Ledger)
    requires t.Keep() && t.prepared(n).Some? && t.answer(n, l).1.Dispatched? && ArchiveWithinRows(l)
    ensures var l' := t.answer(n, l).0;
            && ArchiveWithinRows(l') && |l'.rows| == |l.rows| + 1
            && |l.rows| + 1 in l'.archive && l'.archive[|l.rows| + 1] == t.prepared(n).value
  {
    assert t.KeepsAt(n, l);
  }

  /** Conservation over the run: the stop of the k-th pass is archived under its dispatch index if another pass
      followed, and archived or still selected if the controller refused it. */
  lemma {:induction false} RunConservesStops(t: Turns, n: nat, w: World, l: Ledger, k: nat)
    requires t.Keep() && ArchiveWithinRows(l) && n <= k
    ensures StopConserved(t, n, k, |l.rows|, t.From(n, w, l).1, t.From(n, w, l).2, t.From(n, w, l).3)
    decreases t.Left(l)
  {
    if t.prepared(n).Some? { assert t.KeepsAt(n, l); }
    if t.GoesOn(n, w, l) {
      var next, l' := t.NextWorld(n, w), t.answer(n, l).0;
      TurnArchives(t, n, l);
      PassesAreBounded(t, n + 1, next, l');
      if k == n {
        RunKeepsArchive(t, n + 1, next, l', |l.rows| + 1);
      } else {
        RunConservesStops(t, n + 1, next, l', k);
      }
      assert t.From(n, w, l) == t.From(n + 1, next, l');
    }
  }

  lemma RowArchived(rows: seq<Row>, row: Row, archive: map<nat, Envelope>, archive': map<nat, Envelope>)
    requires RowsArchived(rows, archive)
    requires forall k | k in archive && k != |rows| + 1 :: k in archive' && archive'[k] == archive[k]
    requires row.index == |rows| + 1 && |rows| + 1 in archive' && archive'[|rows| + 1].digest == row.consumed
    ensures RowsArchived(rows + [row], archive')
  {
    forall k: nat | 1 <= k <= |rows + [row]|
      ensures ArchivedAt(rows + [row], archive', k)
    {
      if k <= |rows| { assert ArchivedAt(rows, archive, k); }
    }
  }

  lemma RowsStayArchived(rows: seq<Row>, archive: map<nat, Envelope>, archive': map<nat, Envelope>)
    requires RowsArchived(rows, archive)
    requires forall k | k in archive && k != |rows| + 1 :: k in archive' && archive'[k] == archive[k]
    ensures RowsArchived(rows, archive')
  {
    forall k: nat | 1 <= k <= |rows|
      ensures ArchivedAt(rows, archive', k)
    {
      assert ArchivedAt(rows, archive, k);
    }
  }

  /** Every row names its archived stop, to the end of the run. */
  lemma {:induction false} RunArchivesRows(t: Turns, n: nat, w: World, l: Ledger)
    requires t.Keep() && ArchiveWithinRows(l) && RowsArchived(l.rows, l.archive)
    ensures RowsArchived(t.From(n, w, l).1.rows, t.From(n, w, l).1.archive)
    decreases t.Left(l)
  {
    var (l', decision) := t.answer(n, l);
    if t.prepared(n).Some? {
      assert t.KeepsAt(n, l);
      RowsStayArchived(l.rows, l.archive, l'.archive);
    }
    if t.GoesOn(n, w, l) {
      RowArchived(l.rows, decision.row, l.archive, l'.archive);
      TurnArchives(t, n, l);
      RunArchivesRows(t, n + 1, t.NextWorld(n, w), l');
    }
  }

  ghost predicate AllCurrent(ids: seq<int>, w: World) {
    forall id | id in ids :: id in w.current
  }

  /** If every completed pass leaves its requested layers current, so does a finished run. */
  lemma {:induction false} FinishedRunCompleted(t: Turns, requested: nat -> seq<int>, n: nat, w: World, l: Ledger)
    requires t.Keep() && t.From(n, w, l).2.Finished?
    requires forall m: nat, v: World | t.pass(m, v).1.Completed? :: AllCurrent(requested(m), t.pass(m, v).0)
    ensures t.From(n, w, l).3 > n && AllCurrent(requested(t.From(n, w, l).3 - 1), t.From(n, w, l).0)
    decreases t.Left(l)
  {
    if t.prepared(n).Some? { assert t.KeepsAt(n, l); }
    if t.GoesOn(n, w, l) {
      FinishedRunCompleted(t, requested, n + 1, t.NextWorld(n, w), t.answer(n, l).0);
    }
  }

  lemma {:induction false} RunKeepsReady(t: Turns, n: nat, w: World, l: Ledger)
    requires t.Keep() && AllReady(w.starts)
    requires forall m: nat, v: World | AllReady(v.starts) :: AllReady(t.pass(m, v).0.starts)
    ensures AllReady(t.From(n, w, l).0.starts)
    decreases t.Left(l)
  {
    if t.prepared(n).Some? { assert t.KeepsAt(n, l); }
    if t.GoesOn(n, w, l) {
      RunKeepsReady(t, n + 1, t.NextWorld(n, w), t.answer(n, l).0);
    }
  }

  // ---- the run of the driver -------------------------------------------------------------------------

  /** What the run meets at its stops: the envelope the stopped stage prepared, if any, the answers during its
      dispatch, the publications revoked by the replacement, and the plan selected for each pass. */
  datatype Stops = Stops(
    prepared: nat -> Option<Envelope>,
    answers: nat -> Answers,
    revokes: nat -> set<int>,
    plans: nat -> seq<LayerRow>)

  /** The run's fixed circumstances. */
  datatype Job = Job(stages: Stages, stops: Stops, caps: Caps, start: int, upto: Option<int>) {
    function Chain(n: nat): seq<int> {
      Ids(stops.plans(n))
    }

    function Requested(n: nat): seq<int> {
      InRange(Chain(n), start, upto)
    }

    ghost predicate Validated() {
      forall n: nat :: ValidPlan(stops.plans(n))
    }

    /** The n-th pass, with the requested layers already passed taken as done. */
    function PassOf(n: nat, w: World): (World, PassEnd) {
      Pass(stages, Chain(n), Requested(n), set id | id in Requested(n) && id in w.current :: id, w)
    }

    function AnswerTo(n: nat, l: Ledger): (Ledger, Decision) {
      match stops.prepared(n)
      case None => (l, Refused(NotDispatchable))
      case Some(envelope) => l.(selected := Some(envelope)).Answered(caps, envelope, stops.answers(n))
    }

    function Loop(): Turns {
      Turns((n: nat, w: World) => PassOf(n, w), stops.prepared, (n: nat, l: Ledger) => AnswerTo(n, l), stops.revokes,
            caps)
    }
  }

  lemma LoopKeeps(job: Job)
    ensures job.Loop().Keep()
  {
    var t := job.Loop();
    forall n: nat, l: Ledger | t.prepared(n).Some?
      ensures t.KeepsAt(n, l)
    {
      AnsweredKeeps(l.(selected := t.prepared(n)), job.caps, t.prepared(n).value, job.stops.answers(n));
    }
  }

  ghost function Run(job: Job, w: World, l: Ledger): (World, Ledger, RunEnd, nat)
  {
    LoopKeeps(job);
    if job.Requested(0) == [] then (w, l, NothingInRange, 0) else job.Loop().From(0, w, l)
  }

  lemma CompletedTurnIsSound(job: Job, n: nat, w: World)
    requires job.Validated() && job.PassOf(n, w).1.Completed?
    ensures AllCurrent(job.Requested(n), job.PassOf(n, w).0)
  {
    ValidPlanFacts(job.stops.plans(n));
    RangeInChainOrder(job.Chain(n), job.start, job.upto);
    CompletedPassIsSound(job.stages, job.Chain(n), job.Requested(n),
                         set id | id in job.Requested(n) && id in w.current :: id, w);
  }

  /** A finished run left every requested layer of its last plan current. */
  lemma FinishedRunIsSound(job: Job, w: World, l: Ledger)
    requires job.Validated() && Run(job, w, l).2.Finished?
    ensures Run(job, w, l).3 > 0 && AllCurrent(job.Requested(Run(job, w, l).3 - 1), Run(job, w, l).0)
  {
    LoopKeeps(job);
    var t := job.Loop();
    forall m: nat, v: World | t.pass(m, v).1.Completed?
      ensures AllCurrent(job.Requested(m), t.pass(m, v).0)
    {
      CompletedTurnIsSound(job, m, v);
    }
    FinishedRunCompleted(t, (n: nat) => job.Requested(n), 0, w, l);
  }

  /** No builder of the run is ever refused. */
  lemma RunNeverRefusesBuilders(job: Job, w: World, l: Ledger)
    requires job.Validated() && AllReady(w.starts)
    ensures AllReady(Run(job, w, l).0.starts)
  {
    LoopKeeps(job);
    forall m: nat, v: World | AllReady(v.starts)
      ensures AllReady(job.Loop().pass(m, v).0.starts)
    {
      ValidatedPlanNeverRefuses(job.stops.plans(m), job.start, job.upto, job.stages,
                                set id | id in job.Requested(m) && id in v.current :: id, v);
    }
    RunKeepsReady(job.Loop(), 0, w, l);
  }

  lemma LoopMakesAPass(job: Job, w: World, l: Ledger)
    requires job.Loop().Keep()
    ensures job.Loop().From(0, w, l).3 > 0 && !job.Loop().From(0, w, l).2.NothingInRange?
  {
    var v, k := RunEndsWithItsLastTurn(job.Loop(), 0, w, l);
  }

  /** A run makes no pass, and changes nothing, exactly when its first chain has no layer in the requested range. */
  lemma NothingRequestedIff(job: Job, w: World, l: Ledger)
    ensures var (w', l', end, passes) := Run(job, w, l);
            var upto := if job.upto.Some? && job.upto.value != 0 then job.upto.value else 1_000_000;
            && (end.NothingInRange? <==> forall id | id in job.Chain(0) :: id < job.start || upto < id)
            && (end.NothingInRange? <==> passes == 0) && (end.NothingInRange? ==> w' == w && l' == l)
  {
    LoopKeeps(job);
    LoopMakesAPass(job, w, l);
    NoneInRange(job.Chain(0), job.start, job.upto);
  }

  // ---- the loop itself -----------------------------------------------------------------------------------

  /** Re-derive the chain, the requested layers and those already passed, and make one pass. */
  method RunPass(pubs: Publications, job: Job, n: nat) returns (end: PassEnd)
    requires job.Validated()
    modifies pubs
    ensures (pubs.State(), end) == job.PassOf(n, old(pubs.State()))
  {
    var chain := StrictOrder(job.stops.plans(n));
    var ids := InRange(chain.value, job.start, job.upto);
    var done := set id | id in ids && id in pubs.current :: id;
    end := DriveLayers(pubs, job.stages, chain.value, ids, done);
  }

  /** Give one prepared stop to the controller. */
  method AnswerStop(c: RunController, job: Job, n: nat) returns (decision: Decision)
    requires c.Valid() && c.caps == job.caps && job.stops.prepared(n).Some?
    modifies c, c.shot
    ensures (c.State(), decision) == job.AnswerTo(n, old(c.State())) && c.Valid()
  {
    c.selected := job.stops.prepared(n);
    decision := c.Dispatch(job.stops.prepared(n).value, job.stops.answers(n));
  }

  /** One pass, and the answer to the stop it prepared; `end` says why the run ends with it, if it does. */
  method Turn(pubs: Publications, job: Job, c: RunController, n: nat) returns (end: Option<RunEnd>)
    requires job.Validated() && c.Valid() && c.caps == job.caps && job.Loop().Keep()
    modifies pubs, c, c.shot
    ensures c.Valid()
    ensures var t := job.Loop();
            var before := t.From(n, old(pubs.State()), old(c.State()));
            match end
            case Some(reason) => before == (pubs.State(), c.State(), reason, n + 1)
            case None =>
              && before == t.From(n + 1, pubs.State(), c.State())
              && t.Left(c.State()) < t.Left(old(c.State()))
  {
    ghost var t, w, l := job.Loop(), pubs.State(), c.State();
    var pass := RunPass(pubs, job, n);
    assert (pubs.State(), pass) == t.pass(n, w);
    if pass.Completed? { return Some(Finished); }
    if !pass.dispatchable { return Some(Unanswerable); }
    if job.stops.prepared(n).None? { return Some(Unprepared); }
    var decision := AnswerStop(c, job, n);
    assert (c.State(), decision) == t.answer(n, l) && t.KeepsAt(n, l);
    if decision.Refused? { return Some(DispatchRefused(decision.reason)); }
    pubs.current := pubs.current - job.stops.revokes(n);
    return None;
  }

  /** The driver's loop makes exactly the passes, answers and state changes of `Run`. */
  method Drive(pubs: Publications, job: Job, c: RunController) returns (end: RunEnd, passes: nat)
    requires job.Validated() && c.Valid() && c.caps == job.caps
    modifies pubs, c, c.shot
    ensures (pubs.State(), c.State(), end, passes) == Run(job, old(pubs.State()), old(c.State()))
    ensures c.Valid()
  {
    passes := 0;
    if job.Requested(0) == [] { return NothingInRange, 0; }
    LoopKeeps(job);
    ghost var t := job.Loop();
    while true
      invariant c.Valid()
      invariant t.From(passes, pubs.State(), c.State()) == t.From(0, old(pubs.State()), old(c.State()))
      decreases t.Left(c.State())
    {
      var ended := Turn(pubs, job, c, passes);
      passes := passes + 1;
      if ended.Some? { return ended.value, passes; }
    }
  }
}
