/**
  A controller that dies between two durable writes of a dispatch.

  A dispatch makes the writes of its plan in order.  Whatever prefix of them survives, a later controller reads the
  rows, the archive, the attempts, the receipts and the commits again and may be given the same stop.  Exactly one
  stretch of a plan cannot be recovered: once the fingerprint is spent and before the row is written.
 */
module DispatchRecovery {
  import opened Common
  import opened RunController

  /** One dispatch, of which `survived` planned writes become durable, all of them if there are not that many; or the
      start of another run of the shot, which has no rows, archive or stop yet. */
  datatype Event = Given(envelope: Envelope, answers: Answers, survived: nat) | NewRun

  function Prefix(ws: seq<Write>, n: nat): seq<Write> {
    if n < |ws| then ws[..n] else ws
  }

  function Presented(l: Ledger, envelope: Envelope): Ledger {
    l.(selected := Some(envelope))
  }

  function Next(l: Ledger, caps: Caps, e: Event): Ledger {
    match e
    case NewRun => l.(rows := [], archive := map[], selected := None)
    case Given(envelope, answers, survived) =>
      var m := Presented(l, envelope);
      m.AfterAll(Prefix(m.AnswerPlan(caps, envelope, answers), survived))
  }

  function Later(l: Ledger, caps: Caps, events: seq<Event>): Ledger
    decreases |events|
  {
    if events == [] then l else Later(Next(l, caps, events[0]), caps, events[1..])
  }

  // ---- the plan is the dispatch -----------------------------------------------------------------

  lemma {:induction false} AfterJoin(l: Ledger, a: seq<Write>, b: seq<Write>)
    ensures l.AfterAll(a + b) == l.AfterAll(a).AfterAll(b)
    decreases |a|
  {
    if a == [] {
      assert a + b == b;
    } else {
      assert (a + b)[1..] == a[1..] + b;
      AfterJoin(l.After(a[0]), a[1..], b);
    }
  }

  lemma AfterOne(l: Ledger, w: Write)
    ensures l.AfterAll([w]) == l.After(w)
  {
    assert [w][1..] == [];
  }

  lemma AfterTwo(l: Ledger, v: Write, w: Write)
    ensures l.AfterAll([v, w]) == l.After(v).After(w)
  {
    assert [v, w][1..] == [w];
    AfterOne(l.After(v), w);
  }

  lemma StartPlanIs(l: Ledger, key: Key)
    ensures l.AfterAll(l.StartPlan(key)) == l.Started(key)
  {
    if l.HeadOf(key).NoChain? {
      AfterTwo(l, Receipt(key, PreparedHead), Receipt(key, RunningHead));
    } else if l.HeadOf(key).PreparedHead? {
      AfterOne(l, Receipt(key, RunningHead));
    }
  }

  lemma ConsumePlanIs(l: Ledger, envelope: Envelope)
    ensures l.AfterAll(l.ConsumePlan(envelope)) == l.Consumed(envelope)
  {
    AfterTwo(l, ArchiveStop(|l.rows| + 1, envelope), RemoveStop);
  }

  lemma StagePlanIs(l: Ledger, envelope: Envelope, answers: Answers)
    ensures l.AfterAll(l.StagePlan(envelope, answers)) == l.Concluded(envelope, answers)
  {
    var key := KeyOf(envelope);
    var head := l.ConsumePlan(envelope) + [StageEnded(answers.childStop)];
    var staged := l.Consumed(envelope).(selected := answers.childStop);
    AfterJoin(l, l.ConsumePlan(envelope), [StageEnded(answers.childStop)]);
    ConsumePlanIs(l, envelope);
    AfterOne(l.Consumed(envelope), StageEnded(answers.childStop));
    if answers.childPublished {
      AfterJoin(l, head, [CommitKey(key), Receipt(key, CommittedHead)]);
      AfterTwo(staged, CommitKey(key), Receipt(key, CommittedHead));
    } else {
      AfterJoin(l, head, [Receipt(key, FailedHead)]);
      AfterOne(staged, Receipt(key, FailedHead));
    }
  }

  lemma SettlePlanIs(l: Ledger, envelope: Envelope, answers: Answers)
    ensures l.AfterAll(l.SettlePlan(envelope, answers)) == l.Settled(envelope, answers)
  {
    var key := KeyOf(envelope);
    StartPlanIs(l, key);
    if key in l.commits {
      AfterJoin(l, l.StartPlan(key), [Receipt(key, CommittedHead)]);
      AfterOne(l.Started(key), Receipt(key, CommittedHead));
    } else {
      AfterJoin(l, l.StartPlan(key), l.StagePlan(envelope, answers));
      StagePlanIs(l.Started(key), envelope, answers);
    }
  }

  /** The writes of a record between the fingerprint and the row. */
  function ArchivePlan(l: Ledger, envelope: Envelope): seq<Write> {
    if |l.rows| + 1 in l.archive then [] else l.ConsumePlan(envelope)
  }

  lemma RecordPlanIs(l: Ledger, envelope: Envelope)
    ensures l.AfterAll(l.RecordPlan(envelope)) == l.Committed(envelope).0
  {
    var spent := l.After(Spend(AttemptOf(envelope)));
    AfterJoin(l, [Spend(AttemptOf(envelope))] + ArchivePlan(l, envelope), [AppendRow(l.RowOf(envelope))]);
    AfterJoin(l, [Spend(AttemptOf(envelope))], ArchivePlan(l, envelope));
    AfterOne(l, Spend(AttemptOf(envelope)));
    ConsumePlanIs(spent, envelope);
    AfterOne(spent.AfterAll(ArchivePlan(l, envelope)), AppendRow(l.RowOf(envelope)));
  }

  /** Carried out completely, the plan of an answer is the answer. */
  lemma AnswerPlanIs(l: Ledger, caps: Caps, envelope: Envelope, answers: Answers)
    ensures l.AfterAll(l.AnswerPlan(caps, envelope, answers)) == l.Answered(caps, envelope, answers).0
  {
    var m := l.Settled(envelope, answers);
    SettlePlanIs(l, envelope, answers);
    AfterJoin(l, l.SettlePlan(envelope, answers), m.RecordPlan(envelope));
    RecordPlanIs(m, envelope);
    assert l.SettlePlan(envelope, answers) + [] == l.SettlePlan(envelope, answers);
  }

  /** All writes survive. */
  lemma Completes(l: Ledger, caps: Caps, envelope: Envelope, answers: Answers, n: nat)
    requires n >= |Presented(l, envelope).AnswerPlan(caps, envelope, answers)|
    ensures Next(l, caps, Given(envelope, answers, n)) == Presented(l, envelope).Answered(caps, envelope, answers).0
  {
    AnswerPlanIs(Presented(l, envelope), caps, envelope, answers);
  }

  lemma LaterOne(l: Ledger, caps: Caps, e: Event)
    ensures Later(l, caps, [e]) == Next(l, caps, e)
  {
    assert [e][1..] == [];
  }

  // ---- prefixes --------------------------------------------------------------------------------

  /** Writes that touch neither the attempts nor the rows. */
  predicate Preliminary(ws: seq<Write>) {
    forall w | w in ws :: !w.Spend? && !w.AppendRow?
  }

  lemma {:induction false} PreliminaryKeeps(l: Ledger, ws: seq<Write>)
    requires Preliminary(ws)
    ensures l.AfterAll(ws).attempts == l.attempts && l.AfterAll(ws).rows == l.rows
    decreases |ws|
  {
    if ws != [] {
      assert ws[0] in ws;
      assert forall w | w in ws[1..] :: w in ws;
      PreliminaryKeeps(l.After(ws[0]), ws[1..]);
    }
  }

  lemma SettleIsPreliminary(l: Ledger, envelope: Envelope, answers: Answers)
    ensures Preliminary(l.SettlePlan(envelope, answers))
    ensures Preliminary(ArchivePlan(l, envelope))
  {
  }

  lemma PrefixIsPreliminary(ws: seq<Write>, n: nat)
    requires Preliminary(ws) && n <= |ws|
    ensures Preliminary(ws[..n])
  {
    assert forall w | w in ws[..n] :: w in ws;
  }

  /** A prefix of a record that is not empty and lacks the row: the fingerprint is spent, no row is written. */
  lemma PartialRecord(m: Ledger, envelope: Envelope, k: nat)
    requires 0 < k < |m.RecordPlan(envelope)|
    ensures var m' := m.AfterAll(m.RecordPlan(envelope)[..k]);
            m'.attempts == m.attempts + [AttemptOf(envelope)] && m'.rows == m.rows
  {
    var archive := ArchivePlan(m, envelope);
    var spend := [Spend(AttemptOf(envelope))];
    assert m.RecordPlan(envelope) == spend + archive + [AppendRow(m.RowOf(envelope))];
    assert m.RecordPlan(envelope)[..k] == spend + archive[..k - 1];
    AfterJoin(m, spend, archive[..k - 1]);
    AfterOne(m, spend[0]);
    SettleIsPreliminary(m, envelope, Answers(0.0, true, true, true, None));
    PrefixIsPreliminary(archive, k - 1);
    PreliminaryKeeps(m.After(spend[0]), archive[..k - 1]);
  }

  /** What the attempts and rows are after the first `n` writes: untouched up to the record, then spent, and at the
      very end recorded. */
  lemma PrefixRecords(l: Ledger, envelope: Envelope, answers: Answers, n: nat)
    requires n <= |l.LockedPlan(envelope, answers)|
    ensures var plan := l.LockedPlan(envelope, answers);
            var settle := |l.SettlePlan(envelope, answers)|;
            var m := l.AfterAll(plan[..n]);
            && settle <= |plan|
            && m.attempts == (if n <= settle then l.attempts else l.attempts + [AttemptOf(envelope)])
            && m.rows == if n <= settle || n < |plan| then l.rows else l.rows + [l.RowOf(envelope)]
  {
    var plan := l.LockedPlan(envelope, answers);
    var settle := l.SettlePlan(envelope, answers);
    SettleIsPreliminary(l, envelope, answers);
    if n <= |settle| {
      assert plan[..n] == settle[..n];
      PrefixIsPreliminary(settle, n);
      PreliminaryKeeps(l, settle[..n]);
    } else {
      var m := l.Settled(envelope, answers);
      var record := m.RecordPlan(envelope);
      var k := n - |settle|;
      assert plan[..n] == settle + record[..k];
      AfterJoin(l, settle, record[..k]);
      SettlePlanIs(l, envelope, answers);
      SettledFacts(l, envelope, answers);
      if k < |record| {
        PartialRecord(m, envelope, k);
      } else {
        assert record[..k] == record;
        RecordPlanIs(m, envelope);
      }
    }
  }

  // ---- giving the same stop again -----------------------------------------------------------------

  /** Receipts that leave the key open or committed. */
  predicate Opening(ws: seq<Write>) {
    forall w | w in ws :: w.Receipt? ==> !w.head.FailedHead? && !w.head.OtherAttempt?
  }

  predicate Open(l: Ledger, key: Key) {
    !l.HeadOf(key).FailedHead? && !l.HeadOf(key).OtherAttempt?
  }

  lemma {:induction false} OpeningKeeps(l: Ledger, ws: seq<Write>, key: Key)
    requires Opening(ws) && Open(l, key)
    ensures Open(l.AfterAll(ws), key)
    decreases |ws|
  {
    if ws != [] {
      assert ws[0] in ws;
      assert forall w | w in ws[1..] :: w in ws;
      OpeningKeeps(l.After(ws[0]), ws[1..], key);
    }
  }

  lemma OpeningJoin(a: seq<Write>, b: seq<Write>)
    requires Opening(a) && Opening(b)
    ensures Opening(a + b)
  {
  }

  lemma StartOpens(l: Ledger, key: Key)
    ensures Opening(l.StartPlan(key))
  {
  }

  lemma RecordOpens(l: Ledger, envelope: Envelope)
    ensures Opening(l.RecordPlan(envelope))
  {
  }

  /** The writes of a plan except the one that fails the key. */
  function OpenPlan(l: Ledger, envelope: Envelope, answers: Answers): seq<Write> {
    var key := KeyOf(envelope);
    if l.Settles(envelope, answers) then l.LockedPlan(envelope, answers)
    else l.StartPlan(key) + (l.ConsumePlan(envelope) + [StageEnded(answers.childStop)])
  }

  lemma OpenPlanOpens(l: Ledger, envelope: Envelope, answers: Answers)
    ensures Opening(OpenPlan(l, envelope, answers))
  {
    var key := KeyOf(envelope);
    var staged := l.ConsumePlan(envelope) + [StageEnded(answers.childStop)];
    StartOpens(l, key);
    OpeningJoin(l.StartPlan(key), staged);
    if l.Settles(envelope, answers) {
      var m := l.Settled(envelope, answers);
      RecordOpens(m, envelope);
      OpeningJoin(staged, [CommitKey(key), Receipt(key, CommittedHead)]);
      OpeningJoin(l.StartPlan(key), [Receipt(key, CommittedHead)]);
      if answers.childPublished { OpeningJoin(l.StartPlan(key), l.StagePlan(envelope, answers)); }
      OpeningJoin(l.SettlePlan(envelope, answers), m.RecordPlan(envelope));
    }
  }

  /** Only the last write of a plan can fail the key. */
  lemma PlanOpens(l: Ledger, envelope: Envelope, answers: Answers, n: nat)
    requires n < |l.LockedPlan(envelope, answers)|
    ensures Open(l, KeyOf(envelope)) && Opening(l.LockedPlan(envelope, answers)[..n])
  {
    var plan := l.LockedPlan(envelope, answers);
    var open := OpenPlan(l, envelope, answers);
    OpenPlanOpens(l, envelope, answers);
    assert plan[..n] == open[..n] by {
      if !l.Settles(envelope, answers) { assert plan == open + [Receipt(KeyOf(envelope), FailedHead)]; }
    }
    assert forall w | w in open[..n] :: w in open;
  }

  /** The environment lets a dispatch of this stop get to its key. */
  predicate Passable(l: Ledger, caps: Caps, envelope: Envelope, answers: Answers) {
    && CapReached(l.rows, caps, envelope.layer, answers.spend).None?
    && answers.evidenceReadable && answers.ownershipAdmits
  }

  /** A controller died after `n` writes of a dispatch, before its last one.  Given the same stop, a later one records
      it exactly when the fingerprint was not spent yet and the key already has its commit or gets one now. */
  lemma RedispatchRecordsIff(l: Ledger, caps: Caps, envelope: Envelope, answers: Answers, n: nat, again: Answers)
    requires l.Admitted(caps, envelope, answers) && n < |l.LockedPlan(envelope, answers)|
    requires Passable(l, caps, envelope, again)
    ensures var m := Presented(l.AfterAll(l.LockedPlan(envelope, answers)[..n]), envelope);
            m.Answered(caps, envelope, again).1.Dispatched?
            <==> && n <= |l.SettlePlan(envelope, answers)|
                 && (m.HeadOf(KeyOf(envelope)).CommittedHead? || KeyOf(envelope) in m.commits || again.childPublished)
  {
    var plan := l.LockedPlan(envelope, answers);
    var m := l.AfterAll(plan[..n]);
    PrefixRecords(l, envelope, answers, n);
    PlanOpens(l, envelope, answers, n);
    OpeningKeeps(l, plan[..n], KeyOf(envelope));
    if n > |l.SettlePlan(envelope, answers)| { assert AttemptOf(envelope) in m.attempts; }
    assert Presented(m, envelope).HeadOf(KeyOf(envelope)) == m.HeadOf(KeyOf(envelope));
  }

  lemma {:induction false} CommitsAfter(l: Ledger, ws: seq<Write>, key: Key)
    ensures key in l.AfterAll(ws).commits <==> key in l.commits || CommitKey(key) in ws
    decreases |ws|
  {
    if ws != [] {
      assert ws == [ws[0]] + ws[1..];
      CommitsAfter(l.After(ws[0]), ws[1..], key);
    }
  }

  /** Of an open key without a commit, the commit is the write after the receipts, the archive and the stage. */
  lemma CommitPlace(l: Ledger, envelope: Envelope, answers: Answers, n: nat)
    requires StageRuns(l, envelope) && n <= |l.LockedPlan(envelope, answers)|
    ensures CommitKey(KeyOf(envelope)) in l.LockedPlan(envelope, answers)[..n]
            <==> answers.childPublished && n > |l.StartPlan(KeyOf(envelope))| + 3
  {
    var key := KeyOf(envelope);
    var plan := l.LockedPlan(envelope, answers);
    var at := |l.StartPlan(key)| + 3;
    var before := l.StartPlan(key) + (l.ConsumePlan(envelope) + [StageEnded(answers.childStop)]);
    assert |before| == at && CommitKey(key) !in before;
    if answers.childPublished {
      assert plan == before + [CommitKey(key), Receipt(key, CommittedHead)]
                     + l.Settled(envelope, answers).RecordPlan(envelope);
      assert plan[..at] == before;
      if n > at {
        assert plan[..n][at] == CommitKey(key);
      } else {
        assert plan[..n] == before[..n];
      }
    } else {
      assert plan == before + [Receipt(key, FailedHead)];
      assert forall w | w in plan[..n] :: w in plan;
    }
  }

  /** The replacement is paid for a second time exactly when the controller died before its commit was durable. */
  lemma StageRepeatsIff(l: Ledger, envelope: Envelope, answers: Answers, n: nat)
    requires StageRuns(l, envelope) && n < |l.LockedPlan(envelope, answers)|
    ensures var m := l.AfterAll(l.LockedPlan(envelope, answers)[..n]);
            StageRuns(m, envelope) <==> !answers.childPublished || n <= |l.StartPlan(KeyOf(envelope))| + 3
  {
    var key := KeyOf(envelope);
    var plan := l.LockedPlan(envelope, answers);
    PlanOpens(l, envelope, answers, n);
    OpeningKeeps(l, plan[..n], key);
    CommitsAfter(l, plan[..n], key);
    CommitPlace(l, envelope, answers, n);
    UncommittedStaysOpen(l, plan[..n], key);
  }

  lemma {:induction false} UncommittedStaysOpen(l: Ledger, ws: seq<Write>, key: Key)
    ensures !l.HeadOf(key).CommittedHead? && Receipt(key, CommittedHead) !in ws
            ==> !l.AfterAll(ws).HeadOf(key).CommittedHead?
    decreases |ws|
  {
    if ws != [] {
      assert ws == [ws[0]] + ws[1..];
      UncommittedStaysOpen(l.After(ws[0]), ws[1..], key);
    }
  }

  // ---- a row that is never written ----------------------------------------------------------------

  predicate HasRow(rows: seq<Row>, fingerprint: int) {
    exists r | r in rows :: r.fingerprint == fingerprint
  }

  /** The fingerprint is spent and no row names it. */
  predicate Lost(l: Ledger, fingerprint: int) {
    Recorded(l.attempts, fingerprint) && !HasRow(l.rows, fingerprint)
  }

  lemma {:induction false} LostThroughWrites(l: Ledger, ws: seq<Write>, fingerprint: int)
    requires Lost(l, fingerprint) && forall w | w in ws :: w.AppendRow? ==> w.row.fingerprint != fingerprint
    ensures Lost(l.AfterAll(ws), fingerprint)
    decreases |ws|
  {
    if ws != [] {
      var w := ws[0];
      assert w in ws;
      assert forall v | v in ws[1..] :: v in ws;
      if w.Spend? {
        assert forall a | a in l.attempts :: a in l.attempts + [w.attempt];
      }
      LostThroughWrites(l.After(w), ws[1..], fingerprint);
    }
  }

  lemma PlanRows(l: Ledger, caps: Caps, envelope: Envelope, answers: Answers, w: Write)
    requires w in l.AnswerPlan(caps, envelope, answers) && w.AppendRow?
    ensures w.row.fingerprint == envelope.fingerprint
  {
    SettleIsPreliminary(l, envelope, answers);
    SettleIsPreliminary(l.Settled(envelope, answers), envelope, answers);
  }

  lemma LostThroughEvent(l: Ledger, caps: Caps, e: Event, fingerprint: int)
    requires Lost(l, fingerprint)
    ensures Lost(Next(l, caps, e), fingerprint)
  {
    if e.Given? {
      var m := Presented(l, e.envelope);
      var plan := m.AnswerPlan(caps, e.envelope, e.answers);
      forall w | w in Prefix(plan, e.survived)
        ensures w.AppendRow? ==> w.row.fingerprint != fingerprint
      {
        assert w in plan;
        if w.AppendRow? { PlanRows(m, caps, e.envelope, e.answers, w); }
      }
      LostThroughWrites(m, Prefix(plan, e.survived), fingerprint);
    }
  }

  lemma {:induction false} LostForEver(l: Ledger, caps: Caps, events: seq<Event>, fingerprint: int)
    requires Lost(l, fingerprint)
    ensures Lost(Later(l, caps, events), fingerprint)
    decreases |events|
  {
    if events != [] {
      LostThroughEvent(l, caps, events[0], fingerprint);
      LostForEver(Next(l, caps, events[0]), caps, events[1..], fingerprint);
    }
  }

  /** Some later history of dispatches, of any stops, with any deaths and in any runs, writes a row for this cause. */
  ghost predicate CanStillRecord(l: Ledger, caps: Caps, fingerprint: int) {
    exists events: seq<Event> :: HasRow(Later(l, caps, events).rows, fingerprint)
  }

  /** A controller that dies during an admitted dispatch leaves a cause no later dispatch can ever record exactly when
      it dies between spending the fingerprint and writing the row: after the key settled, inside the record. */
  lemma DeathLosesRowIff(l: Ledger, caps: Caps, envelope: Envelope, answers: Answers, n: nat)
    requires l.Admitted(caps, envelope, answers) && n < |l.LockedPlan(envelope, answers)|
    requires !HasRow(l.rows, envelope.fingerprint)
    ensures var m := l.AfterAll(l.LockedPlan(envelope, answers)[..n]);
            !CanStillRecord(m, caps, envelope.fingerprint) <==> n > |l.SettlePlan(envelope, answers)|
  {
    var m := l.AfterAll(l.LockedPlan(envelope, answers)[..n]);
    PrefixRecords(l, envelope, answers, n);
    if n > |l.SettlePlan(envelope, answers)| {
      assert AttemptOf(envelope) in m.attempts;
      forall events: seq<Event>
        ensures !HasRow(Later(m, caps, events).rows, envelope.fingerprint)
      {
        LostForEver(m, caps, events, envelope.fingerprint);
      }
    } else {
      RecordsAgain(l, caps, envelope, answers, n);
    }
  }

  lemma RecordsAgain(l: Ledger, caps: Caps, envelope: Envelope, answers: Answers, n: nat)
    requires l.Admitted(caps, envelope, answers) && n < |l.LockedPlan(envelope, answers)|
    requires n <= |l.SettlePlan(envelope, answers)|
    ensures CanStillRecord(l.AfterAll(l.LockedPlan(envelope, answers)[..n]), caps, envelope.fingerprint)
  {
    var again := answers.(childPublished := true);
    RedispatchRecordsIff(l, caps, envelope, answers, n, again);
    DispatchRecords(l.AfterAll(l.LockedPlan(envelope, answers)[..n]), caps, envelope, again);
  }

  lemma DispatchRecords(m: Ledger, caps: Caps, envelope: Envelope, answers: Answers)
    requires Presented(m, envelope).Answered(caps, envelope, answers).1.Dispatched?
    ensures CanStillRecord(m, caps, envelope.fingerprint)
  {
    var p := Presented(m, envelope);
    var n := |p.AnswerPlan(caps, envelope, answers)|;
    Completes(m, caps, envelope, answers, n);
    AnsweredKeeps(p, caps, envelope, answers);
    LaterOne(m, caps, Given(envelope, answers, n));
    var rows := Later(m, caps, [Given(envelope, answers, n)]).rows;
    assert rows[|rows| - 1] in rows;
  }

  // ---- what survives every death -----------------------------------------------------------------

  /** The dispatched stop is archived under its index before it is removed, and no other archive is written. */
  predicate Guarded(ws: seq<Write>, index: nat, envelope: Envelope) {
    && (forall w | w in ws && w.ArchiveStop? :: w == ArchiveStop(index, envelope))
    && (forall k | 0 <= k < |ws| && (ws[k].RemoveStop? || ws[k].StageEnded?) :: ArchiveStop(index, envelope) in ws[..k])
  }

  lemma GuardedPrefix(ws: seq<Write>, n: nat, index: nat, envelope: Envelope)
    requires Guarded(ws, index, envelope) && n <= |ws|
    ensures Guarded(ws[..n], index, envelope)
  {
    assert forall w | w in ws[..n] :: w in ws;
    forall k | 0 <= k < n && (ws[..n][k].RemoveStop? || ws[..n][k].StageEnded?)
      ensures ArchiveStop(index, envelope) in ws[..n][..k]
    {
      assert ws[..n][..k] == ws[..k];
    }
  }

  lemma GuardedJoin(a: seq<Write>, b: seq<Write>, index: nat, envelope: Envelope)
    requires Guarded(a, index, envelope) && Guarded(b, index, envelope)
    ensures Guarded(a + b, index, envelope)
  {
    forall k | 0 <= k < |a + b| && ((a + b)[k].RemoveStop? || (a + b)[k].StageEnded?)
      ensures ArchiveStop(index, envelope) in (a + b)[..k]
    {
      if k < |a| {
        assert (a + b)[..k] == a[..k];
      } else {
        assert (a + b)[..k] == a + b[..k - |a|];
      }
    }
  }

  /** The stop is archived, or no write has removed it yet. */
  predicate Kept(m: Ledger, index: nat, envelope: Envelope, archived: bool) {
    if archived then index in m.archive && m.archive[index] == envelope else m.selected == Some(envelope)
  }

  lemma KeptStep(m: Ledger, w: Write, index: nat, envelope: Envelope, archived: bool)
    requires Kept(m, index, envelope, archived)
    requires w.ArchiveStop? ==> w == ArchiveStop(index, envelope)
    requires w.RemoveStop? || w.StageEnded? ==> archived
    ensures Kept(m.After(w), index, envelope, archived || w == ArchiveStop(index, envelope))
    ensures m.After(w).archive - {index} == m.archive - {index}
  {
  }

  lemma {:induction false} GuardedConserves(l: Ledger, ws: seq<Write>, index: nat, envelope: Envelope)
    requires Guarded(ws, index, envelope) && l.selected == Some(envelope)
    ensures var m := l.AfterAll(ws);
            && Kept(m, index, envelope, ArchiveStop(index, envelope) in ws)
            && m.archive - {index} == l.archive - {index}
    decreases |ws|
  {
    if ws != [] {
      var init, last := ws[..|ws| - 1], ws[|ws| - 1];
      assert ws == init + [last];
      GuardedPrefix(ws, |ws| - 1, index, envelope);
      GuardedConserves(l, init, index, envelope);
      AfterJoin(l, init, [last]);
      AfterOne(l.AfterAll(init), last);
      assert last in ws;
      KeptStep(l.AfterAll(init), last, index, envelope, ArchiveStop(index, envelope) in init);
    }
  }

  lemma ConsumeGuarded(l: Ledger, envelope: Envelope, stop: Option<Envelope>)
    ensures Guarded(l.ConsumePlan(envelope), |l.rows| + 1, envelope)
    ensures Guarded(l.ConsumePlan(envelope) + [StageEnded(stop)], |l.rows| + 1, envelope)
  {
    var ws := l.ConsumePlan(envelope) + [StageEnded(stop)];
    assert ws[..1] == [ArchiveStop(|l.rows| + 1, envelope)];
    assert l.ConsumePlan(envelope)[..1] == [ArchiveStop(|l.rows| + 1, envelope)];
    assert ArchiveStop(|l.rows| + 1, envelope) in ws[..2];
  }

  lemma LockedGuarded(l: Ledger, envelope: Envelope, answers: Answers)
    ensures Guarded(l.LockedPlan(envelope, answers), |l.rows| + 1, envelope)
  {
    var key, index := KeyOf(envelope), |l.rows| + 1;
    var consume := l.ConsumePlan(envelope) + [StageEnded(answers.childStop)];
    ConsumeGuarded(l, envelope, answers.childStop);
    var end := if answers.childPublished then [CommitKey(key), Receipt(key, CommittedHead)]
               else [Receipt(key, FailedHead)];
    GuardedJoin(consume, end, index, envelope);
    GuardedJoin(l.StartPlan(key), l.StagePlan(envelope, answers), index, envelope);
    GuardedJoin(l.StartPlan(key), [Receipt(key, CommittedHead)], index, envelope);
    if l.Settles(envelope, answers) {
      var m := l.Settled(envelope, answers);
      SettledFacts(l, envelope, answers);
      RecordGuarded(m, envelope);
      GuardedJoin(l.SettlePlan(envelope, answers), m.RecordPlan(envelope), index, envelope);
    } else {
      GuardedJoin(l.SettlePlan(envelope, answers), [], index, envelope);
    }
  }

  lemma RecordGuarded(m: Ledger, envelope: Envelope)
    ensures Guarded(m.RecordPlan(envelope), |m.rows| + 1, envelope)
  {
    var index := |m.rows| + 1;
    ConsumeGuarded(m, envelope, None);
    GuardedJoin([Spend(AttemptOf(envelope))], ArchivePlan(m, envelope), index, envelope);
    GuardedJoin([Spend(AttemptOf(envelope))] + ArchivePlan(m, envelope), [AppendRow(m.RowOf(envelope))], index,
                envelope);
  }

  /** Wherever a dispatch dies: its stop is still selected or archived under its index, no other archive changed, rows
      stay within both caps and attempts keep distinct fingerprints. */
  lemma DeathKeeps(l: Ledger, caps: Caps, envelope: Envelope, answers: Answers, n: nat)
    requires WithinCaps(l.rows, caps) && DistinctFingerprints(l.attempts)
    ensures var m := Next(l, caps, Given(envelope, answers, n));
            && ConservedIn(m, envelope, |l.rows| + 1) && m.archive - {|l.rows| + 1} == l.archive - {|l.rows| + 1}
            && (m.rows == l.rows || m.rows == l.rows + [l.RowOf(envelope)])
            && WithinCaps(m.rows, caps) && DistinctFingerprints(m.attempts)
  {
    var p := Presented(l, envelope);
    if p.Admitted(caps, envelope, answers) {
      var plan := p.LockedPlan(envelope, answers);
      var k := if n < |plan| then n else |plan|;
      assert Prefix(plan, n) == plan[..k];
      LockedGuarded(p, envelope, answers);
      GuardedPrefix(plan, k, |l.rows| + 1, envelope);
      GuardedConserves(p, plan[..k], |l.rows| + 1, envelope);
      PrefixRecords(p, envelope, answers, k);
      CapReachedIff(l.rows, caps, envelope.layer, answers.spend);
      DispatchKeepsCaps(l.rows, l.RowOf(envelope), caps);
      FreshFingerprint(l.attempts, AttemptOf(envelope));
    }
  }

  /** Through any history of dispatches, deaths and runs. */
  lemma {:induction false} HistoryKeepsLimits(l: Ledger, caps: Caps, events: seq<Event>)
    requires WithinCaps(l.rows, caps) && DistinctFingerprints(l.attempts)
    ensures WithinCaps(Later(l, caps, events).rows, caps) && DistinctFingerprints(Later(l, caps, events).attempts)
    decreases |events|
  {
    if events != [] {
      if events[0].Given? {
        DeathKeeps(l, caps, events[0].envelope, events[0].answers, events[0].survived);
      }
      HistoryKeepsLimits(Next(l, caps, events[0]), caps, events[1..]);
    }
  }

  // ---- the archive a row names ---------------------------------------------------------------------

  /** The archive under a new row's index is the stop the row consumed exactly when the stage ran now, the index was
      free, or the stop was already archived there. */
  lemma RowNamesItsStopIff(l: Ledger, envelope: Envelope, answers: Answers)
    requires l.Settles(envelope, answers)
    ensures var (l', decision) := l.Locked(envelope, answers);
            var index := |l.rows| + 1;
            && decision.Dispatched? && index in l'.archive
            && (l'.archive[index] == envelope
                <==> StageRuns(l, envelope) || index !in l.archive || l.archive[index] == envelope)
  {
    SettledFacts(l, envelope, answers);
  }

  /** All writes up to the record survive. */
  lemma DiesSettled(l: Ledger, caps: Caps, envelope: Envelope, answers: Answers)
    requires Presented(l, envelope).Admitted(caps, envelope, answers)
    ensures var p := Presented(l, envelope);
            var n := |p.SettlePlan(envelope, answers)|;
            && n <= |p.LockedPlan(envelope, answers)|
            && Next(l, caps, Given(envelope, answers, n)) == p.Settled(envelope, answers)
  {
    var p := Presented(l, envelope);
    var settle := p.SettlePlan(envelope, answers);
    assert p.LockedPlan(envelope, answers)[..|settle|] == settle;
    SettlePlanIs(p, envelope, answers);
    assert settle == Prefix(p.LockedPlan(envelope, answers), |settle|);
  }

  /** A run without rows, in which the stop `archived` was consumed last. */
  ghost predicate NoRows(l: Ledger, archived: Envelope) {
    l.rows == [] && l.attempts == [] && l.archive == map[1 := archived]
  }

  /** A first dispatch that dies when its key is settled. */
  lemma FirstSettles(l: Ledger, caps: Caps, first: Envelope, answers: Answers)
    requires l == Ledger([], map[], None, [], map[], {}) && answers.childPublished
    requires Presented(l, first).Admitted(caps, first, answers)
    ensures var l' := Next(l, caps, Given(first, answers, 7));
            NoRows(l', first) && l'.HeadOf(KeyOf(first)) == CommittedHead && l'.heads.Keys == {KeyOf(first)}
            && l'.commits == {KeyOf(first)}
  {
    DiesSettled(l, caps, first, answers);
  }

  /** A dispatch of another key whose stage publishes nothing. */
  lemma SecondFails(l: Ledger, caps: Caps, first: Envelope, second: Envelope, answers: Answers)
    requires NoRows(l, first) && l.HeadOf(KeyOf(first)) == CommittedHead && l.heads.Keys == {KeyOf(first)}
    requires l.commits == {KeyOf(first)} && KeyOf(second) != KeyOf(first) && !answers.childPublished
    requires Presented(l, second).Admitted(caps, second, answers)
    ensures var l' := Next(l, caps, Given(second, answers, 6));
            NoRows(l', second) && l'.HeadOf(KeyOf(first)) == CommittedHead
  {
    Completes(l, caps, second, answers, 6);
    assert map[1 := first][1 := second] == map[1 := second];
  }

  /** A settled key is recorded; the index is taken. */
  lemma ThirdRecords(l: Ledger, caps: Caps, first: Envelope, second: Envelope, answers: Answers)
    requires NoRows(l, second) && l.HeadOf(KeyOf(first)) == CommittedHead
    requires Presented(l, first).Admitted(caps, first, answers)
    ensures var l' := Next(l, caps, Given(first, answers, 2));
            l'.rows == [Row(1, first.layer, first.digest, first.fingerprint)] && l'.archive == map[1 := second]
  {
    Completes(l, caps, first, answers, 2);
  }

  /** The other case is reached: a controller settles the first stop's key and dies; the second stop, of another key,
      is archived in its place and fails; given the first stop again the row names the archive of the second. */
  lemma RowNamesAnotherStop(first: Envelope, second: Envelope, caps: Caps)
    requires first.amendsLayerView && second.amendsLayerView && KeyOf(first) != KeyOf(second)
    requires caps.maxDispatches >= 1 && caps.maxPerLayer >= 1 && caps.maxUsd.None?
    ensures var publishes, fails := Answers(0.0, true, true, true, None), Answers(0.0, true, true, false, None);
            var events := [Given(first, publishes, 7), Given(second, fails, 6), Given(first, publishes, 2)];
            var l := Later(Ledger([], map[], None, [], map[], {}), caps, events);
            l.rows == [Row(1, first.layer, first.digest, first.fingerprint)] && l.archive == map[1 := second]
  {
    var publishes, fails := Answers(0.0, true, true, true, None), Answers(0.0, true, true, false, None);
    var l0 := Ledger([], map[], None, [], map[], {});
    var e1, e2, e3 := Given(first, publishes, 7), Given(second, fails, 6), Given(first, publishes, 2);
    FirstSettles(l0, caps, first, publishes);
    SecondFails(Next(l0, caps, e1), caps, first, second, fails);
    ThirdRecords(Next(Next(l0, caps, e1), caps, e2), caps, first, second, publishes);
    LaterThree(l0, caps, e1, e2, e3);
  }

  lemma LaterThree(l: Ledger, caps: Caps, e1: Event, e2: Event, e3: Event)
    ensures Later(l, caps, [e1, e2, e3]) == Next(Next(Next(l, caps, e1), caps, e2), caps, e3)
  {
    assert [e1, e2, e3][1..] == [e2, e3] && [e2, e3][1..] == [e3];
    LaterOne(Next(Next(l, caps, e1), caps, e2), caps, e3);
  }
}
