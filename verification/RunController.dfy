/**
  The controller that answers typed stops: it refuses, or it dispatches one receipt-backed
  replacement of a layer's view, archives the stop it consumed and appends one ledger row.

  `Shot` is what survives a run: the recorded dispatch attempts, the receipt chains by
  idempotency key and the commits.  A `RunController` belongs to one run.
 */
module RunController {
  import opened Common

  /** The facts of a stop envelope that dispatching reads; `digest` identifies the envelope. */
  datatype Envelope = Envelope(
    digest: int,
    action: int,
    amendsLayerView: bool, // names the one dispatchable transaction with a layer-view target
    layer: int,
    before: int,
    evidence: int,
    fingerprint: int)

  /** What the idempotency key binds. */
  datatype Key = Key(action: int, before: int, evidence: int)

  function KeyOf(e: Envelope): Key {
    Key(e.action, e.before, e.evidence)
  }

  datatype Attempt = Attempt(fingerprint: int, before: int, evidence: int)

  datatype ReceiptHead = NoChain | OtherAttempt | PreparedHead | RunningHead | CommittedHead | FailedHead

  datatype Row = Row(index: nat, layer: int, consumed: int, fingerprint: int)

  datatype Caps = Caps(maxDispatches: nat, maxPerLayer: nat, maxUsd: Option<real>)

  datatype Reason =
    | NotDispatchable
    | BudgetExhausted
    | RepeatedFinding
    | EvidenceUnavailable
    | OwnershipRefused
    | AdapterFailed

  datatype Decision = Dispatched(row: Row) | Refused(reason: Reason)

  /** What the environment answers during one dispatch: the spend so far, whether the cited evidence
      is readable, whether ownership admits the target, and what the replacement stage does. */
  datatype Answers = Answers(spend: real, evidenceReadable: bool, ownershipAdmits: bool, childPublished: bool,
                             childStop: Option<Envelope>)

  // ---- ledgers ----------------------------------------------------------------------------------

  function LayerRows(rows: seq<Row>, layer: int): nat {
    if rows == [] then 0 else (if rows[0].layer == layer then 1 else 0) + LayerRows(rows[1..], layer)
  }

  lemma {:induction false} LayerRowsAppend(rows: seq<Row>, row: Row, layer: int)
    ensures LayerRows(rows + [row], layer) == LayerRows(rows, layer) + if row.layer == layer then 1 else 0
  {
    if rows == [] {
      assert [row][1..] == [];
    } else {
      assert (rows + [row])[1..] == rows[1..] + [row];
      LayerRowsAppend(rows[1..], row, layer);
    }
  }

  /** The rows that dispatched the layer. */
  ghost function LayerPositions(rows: seq<Row>, layer: int): set<nat> {
    set i: nat | i < |rows| && rows[i].layer == layer
  }

  lemma LayerPositionsAppend(rows: seq<Row>, row: Row, layer: int)
    ensures LayerPositions(rows + [row], layer)
            == LayerPositions(rows, layer) + if row.layer == layer then {|rows|} else {}
    ensures |LayerPositions(rows + [row], layer)| == |LayerPositions(rows, layer)| + if row.layer == layer then 1 else 0
  {
  }

  /** The loop counts the rows of the layer. */
  lemma {:induction false} LayerRowsCounts(rows: seq<Row>, layer: int)
    ensures LayerRows(rows, layer) == |LayerPositions(rows, layer)|
  {
    if rows != [] {
      var init, last := rows[..|rows| - 1], rows[|rows| - 1];
      assert rows == init + [last];
      LayerRowsCounts(init, layer);
      LayerRowsAppend(init, last, layer);
      LayerPositionsAppend(init, last, layer);
    }
  }

  /** A run stays within its dispatch cap, and every layer within its own. */
  ghost predicate WithinCaps(rows: seq<Row>, caps: Caps) {
    |rows| <= caps.maxDispatches && forall layer :: |LayerPositions(rows, layer)| <= caps.maxPerLayer
  }

  /** One more dispatch of the layer fits the caps and the spend is below the ceiling, if there is one. */
  ghost predicate Affordable(rows: seq<Row>, caps: Caps, layer: int, spend: real) {
    && |rows| < caps.maxDispatches && |LayerPositions(rows, layer)| < caps.maxPerLayer
    && (caps.maxUsd.Some? ==> spend < caps.maxUsd.value)
  }

  ghost predicate DistinctFingerprints(attempts: seq<Attempt>) {
    forall i, j | 0 <= i < j < |attempts| :: attempts[i].fingerprint != attempts[j].fingerprint
  }

  predicate Recorded(attempts: seq<Attempt>, fingerprint: int) {
    exists a | a in attempts :: a.fingerprint == fingerprint
  }

  /** The k-th row, counted from one, names its archived stop. */
  ghost predicate ArchivedAt(rows: seq<Row>, archive: map<nat, Envelope>, k: nat)
    requires 1 <= k <= |rows|
  {
    k in archive && rows[k - 1].index == k && archive[k].digest == rows[k - 1].consumed
  }

  /** Rows are numbered from one and each names the archived stop it consumed. */
  ghost predicate RowsArchived(rows: seq<Row>, archive: map<nat, Envelope>) {
    forall k: nat | 1 <= k <= |rows| :: ArchivedAt(rows, archive, k)
  }

  // ---- one dispatch, on values ------------------------------------------------------------------

  /** One durable write. */
  datatype Write =
    | Receipt(key: Key, head: ReceiptHead)
    | ArchiveStop(index: nat, envelope: Envelope)
    | RemoveStop
    | StageEnded(stop: Option<Envelope>) // what the replacement stage left selected
    | CommitKey(key: Key)
    | Spend(attempt: Attempt)
    | AppendRow(row: Row)

  /** Everything a dispatch reads and writes: the run's rows, archive and selected stop, and the shot's
      attempts, receipt heads and commits. */
  datatype Ledger = Ledger(
    rows: seq<Row>,
    archive: map<nat, Envelope>,
    selected: Option<Envelope>,
    attempts: seq<Attempt>,
    heads: map<Key, ReceiptHead>,
    commits: set<Key>)
  {
    function HeadOf(key: Key): ReceiptHead {
      if key in heads then heads[key] else NoChain
    }

    function WithHead(key: Key, head: ReceiptHead): Ledger {
      this.(heads := heads[key := head])
    }

    function Consumed(envelope: Envelope): Ledger {
      this.(archive := archive[|rows| + 1 := envelope], selected := None)
    }

    function RowOf(envelope: Envelope): Row {
      Row(|rows| + 1, envelope.layer, envelope.digest, envelope.fingerprint)
    }

    function Committed(envelope: Envelope): (Ledger, Decision) {
      var archived := if |rows| + 1 in archive then this else Consumed(envelope);
      (archived.(rows := rows + [RowOf(envelope)], attempts := attempts + [AttemptOf(envelope)]),
       Dispatched(RowOf(envelope)))
    }

    /** The receipt is brought to running. */
    function Started(key: Key): Ledger {
      match HeadOf(key)
      case NoChain => WithHead(key, PreparedHead).WithHead(key, RunningHead)
      case PreparedHead => WithHead(key, RunningHead)
      case _ => this
    }

    /** The stop is archived, the replacement stage run, and its outcome made final. */
    function Concluded(envelope: Envelope, answers: Answers): Ledger {
      var key := KeyOf(envelope);
      var staged := Consumed(envelope).(selected := answers.childStop);
      if answers.childPublished then staged.(commits := commits + {key}).WithHead(key, CommittedHead)
      else staged.WithHead(key, FailedHead)
    }

    /** The key's transaction ends committed: it already was, or its stage publishes a replacement. */
    predicate Settles(envelope: Envelope, answers: Answers) {
      var head := HeadOf(KeyOf(envelope));
      && !head.OtherAttempt? && !head.FailedHead?
      && (head.CommittedHead? || KeyOf(envelope) in commits || answers.childPublished)
    }

    /** What the transaction does to its key before the dispatch is recorded. */
    function Settled(envelope: Envelope, answers: Answers): Ledger {
      var key := KeyOf(envelope);
      var head := HeadOf(key);
      if head.OtherAttempt? || head.FailedHead? || head.CommittedHead? then this
      else if key in commits then Started(key).WithHead(key, CommittedHead)
      else Started(key).Concluded(envelope, answers)
    }

    /** The transaction under the key's lock. */
    function Locked(envelope: Envelope, answers: Answers): (Ledger, Decision) {
      var l := Settled(envelope, answers);
      if Settles(envelope, answers) then l.Committed(envelope) else (l, Refused(AdapterFailed))
    }

    // ---- the same as durable writes, in order ----

    function After(w: Write): Ledger {
      match w
      case Receipt(key, head) => WithHead(key, head)
      case ArchiveStop(index, envelope) => this.(archive := archive[index := envelope])
      case RemoveStop => this.(selected := None)
      case StageEnded(stop) => this.(selected := stop)
      case CommitKey(key) => this.(commits := commits + {key})
      case Spend(attempt) => this.(attempts := attempts + [attempt])
      case AppendRow(row) => this.(rows := rows + [row])
    }

    function AfterAll(ws: seq<Write>): Ledger
      decreases |ws|
    {
      if ws == [] then this else After(ws[0]).AfterAll(ws[1..])
    }

    function StartPlan(key: Key): seq<Write> {
      match HeadOf(key)
      case NoChain => [Receipt(key, PreparedHead), Receipt(key, RunningHead)]
      case PreparedHead => [Receipt(key, RunningHead)]
      case _ => []
    }

    function ConsumePlan(envelope: Envelope): seq<Write> {
      [ArchiveStop(|rows| + 1, envelope), RemoveStop]
    }

    function StagePlan(envelope: Envelope, answers: Answers): seq<Write> {
      var key := KeyOf(envelope);
      ConsumePlan(envelope) + [StageEnded(answers.childStop)]
      + (if answers.childPublished then [CommitKey(key), Receipt(key, CommittedHead)] else [Receipt(key, FailedHead)])
    }

    /** Everything before the dispatch is recorded. */
    function SettlePlan(envelope: Envelope, answers: Answers): seq<Write> {
      var key := KeyOf(envelope);
      var head := HeadOf(key);
      if head.OtherAttempt? || head.FailedHead? || head.CommittedHead? then []
      else if key in commits then StartPlan(key) + [Receipt(key, CommittedHead)]
      else StartPlan(key) + StagePlan(envelope, answers)
    }

    /** The fingerprint is spent, the stop archived unless its index is taken, and the row written. */
    function RecordPlan(envelope: Envelope): seq<Write> {
      [Spend(AttemptOf(envelope))] + (if |rows| + 1 in archive then [] else ConsumePlan(envelope))
      + [AppendRow(RowOf(envelope))]
    }

    function LockedPlan(envelope: Envelope, answers: Answers): seq<Write> {
      SettlePlan(envelope, answers)
      + if Settles(envelope, answers) then Settled(envelope, answers).RecordPlan(envelope) else []
    }

    function AnswerPlan(caps: Caps, envelope: Envelope, answers: Answers): seq<Write> {
      if Admitted(caps, envelope, answers) then LockedPlan(envelope, answers) else []
    }

    /** The dispatch gets as far as the key's transaction. */
    predicate Admitted(caps: Caps, envelope: Envelope, answers: Answers) {
      && envelope.amendsLayerView && CapReached(rows, caps, envelope.layer, answers.spend).None?
      && !Recorded(attempts, envelope.fingerprint) && answers.evidenceReadable && answers.ownershipAdmits
    }

    function Answered(caps: Caps, envelope: Envelope, answers: Answers): (Ledger, Decision) {
      if !envelope.amendsLayerView then (this, Refused(NotDispatchable))
      else if CapReached(rows, caps, envelope.layer, answers.spend).Some? then
        (this, Refused(CapReached(rows, caps, envelope.layer, answers.spend).value))
      else if Recorded(attempts, envelope.fingerprint) then (this, Refused(RepeatedFinding))
      else if !answers.evidenceReadable then (this, Refused(EvidenceUnavailable))
      else if !answers.ownershipAdmits then (this, Refused(OwnershipRefused))
      else Locked(envelope, answers)
    }
  }

  function CapReached(rows: seq<Row>, caps: Caps, layer: int, spend: real): Option<Reason> {
    if |rows| >= caps.maxDispatches then Some(BudgetExhausted)
    else if LayerRows(rows, layer) >= caps.maxPerLayer then Some(BudgetExhausted)
    else if caps.maxUsd.Some? && spend >= caps.maxUsd.value then Some(BudgetExhausted)
    else None
  }

  /** The cap tests refuse exactly what cannot be afforded, and for no other reason than the budget. */
  lemma CapReachedIff(rows: seq<Row>, caps: Caps, layer: int, spend: real)
    ensures CapReached(rows, caps, layer, spend)
            == if Affordable(rows, caps, layer, spend) then None else Some(BudgetExhausted)
  {
    LayerRowsCounts(rows, layer);
  }

  /** Within the caps, a dispatch can be afforded exactly when its row keeps them and the spend is below the ceiling. */
  lemma AffordableIff(rows: seq<Row>, caps: Caps, row: Row, spend: real)
    requires WithinCaps(rows, caps)
    ensures Affordable(rows, caps, row.layer, spend)
            <==> WithinCaps(rows + [row], caps) && (caps.maxUsd.Some? ==> spend < caps.maxUsd.value)
  {
    LayerPositionsAppend(rows, row, row.layer);
    if |LayerPositions(rows, row.layer)| < caps.maxPerLayer {
      forall layer
        ensures |rows + [row]| == |rows| + 1 && |LayerPositions(rows + [row], layer)| <= caps.maxPerLayer
      {
        LayerPositionsAppend(rows, row, layer);
      }
    }
  }

  /** Within the caps: refused for budget exactly when the row would break them or the ceiling is reached. */
  lemma BudgetRefusalIff(l: Ledger, caps: Caps, envelope: Envelope, answers: Answers)
    requires WithinCaps(l.rows, caps)
    ensures l.Answered(caps, envelope, answers).1 == Refused(BudgetExhausted)
            <==> && envelope.amendsLayerView
                 && !(WithinCaps(l.rows + [l.RowOf(envelope)], caps)
                      && (caps.maxUsd.Some? ==> answers.spend < caps.maxUsd.value))
  {
    CapReachedIff(l.rows, caps, envelope.layer, answers.spend);
    AffordableIff(l.rows, caps, l.RowOf(envelope), answers.spend);
  }

  function AttemptOf(envelope: Envelope): Attempt {
    Attempt(envelope.fingerprint, envelope.before, envelope.evidence)
  }

  class Shot {
    var attempts: seq<Attempt>
    var heads: map<Key, ReceiptHead>
    var commits: set<Key>

    ghost predicate Valid()
      reads this
    {
      DistinctFingerprints(attempts)
    }

    constructor ()
      ensures Valid() && attempts == []
    {
      attempts, heads, commits := [], map[], {};
    }

    function HeadOf(key: Key): ReceiptHead
      reads this
    {
      if key in heads then heads[key] else NoChain
    }
  }

  class RunController {
    const shot: Shot
    const caps: Caps
    var rows: seq<Row>
    var archive: map<nat, Envelope>
    var selected: Option<Envelope>
    ghost var writes: seq<Write>

    constructor (shot: Shot, caps: Caps, rows: seq<Row>, archive: map<nat, Envelope>)
      ensures this.shot == shot && this.caps == caps && this.rows == rows && this.archive == archive
      ensures selected == None && writes == []
    {
      this.shot, this.caps, this.rows, this.archive := shot, caps, rows, archive;
      selected, writes := None, [];
    }

    function CapRefusal(layer: int, spend: real): Option<Reason>
      reads this
    {
      CapReached(rows, caps, layer, spend)
    }

    ghost function State(): Ledger
      reads this, shot
    {
      Ledger(rows, archive, selected, shot.attempts, shot.heads, shot.commits)
    }

    /** What every call keeps, whichever way it returns. */
    ghost predicate Valid()
      reads this, shot
    {
      shot.Valid()
    }

    /** Selected or archived under the index the dispatch would take. */
    ghost predicate Conserved(envelope: Envelope, index: nat)
      reads this
    {
      selected == Some(envelope) || (index in archive && archive[index] == envelope)
    }

    /** The key's transaction ends committed: it already was, or its stage publishes a replacement. */
    ghost predicate Settles(envelope: Envelope, answers: Answers)
      reads this, shot
    {
      State().Settles(envelope, answers)
    }

    method Dispatch(envelope: Envelope, answers: Answers) returns (decision: Decision)
      requires Valid() && selected == Some(envelope)
      modifies this, shot
      ensures (State(), decision) == old(State()).Answered(caps, envelope, answers)
      ensures writes == old(writes) + old(State()).AnswerPlan(caps, envelope, answers)
      ensures Valid()
      // Conservation of the stop, on every path.
      ensures Conserved(envelope, |old(rows)| + 1)
      // Archives of earlier rows are never rewritten.
      ensures forall k | k in old(archive) && k != |old(rows)| + 1 :: k in archive && archive[k] == old(archive)[k]
      ensures archive.Keys <= old(archive).Keys + {|old(rows)| + 1}
      // A dispatch appends one row and spends one fingerprint.
      ensures decision.Dispatched? ==>
                && decision.row == Row(|old(rows)| + 1, envelope.layer, envelope.digest, envelope.fingerprint)
                && rows == old(rows) + [decision.row]
                && shot.attempts
                   == old(shot.attempts) + [Attempt(envelope.fingerprint, envelope.before, envelope.evidence)]
                && |old(rows)| + 1 in archive
                && (|old(rows)| + 1 !in old(archive) ==> archive[|old(rows)| + 1] == envelope)
      ensures decision.Refused? ==> rows == old(rows) && shot.attempts == old(shot.attempts)
      // What is decided, in this order.
      ensures decision == Refused(NotDispatchable) <==> !envelope.amendsLayerView
      ensures decision == Refused(BudgetExhausted)
              <==> envelope.amendsLayerView && !Affordable(old(rows), caps, envelope.layer, answers.spend)
      ensures decision == Refused(RepeatedFinding)
              <==> && envelope.amendsLayerView && Affordable(old(rows), caps, envelope.layer, answers.spend)
                   && exists a | a in old(shot.attempts) :: a.fingerprint == envelope.fingerprint
      ensures decision == Refused(EvidenceUnavailable)
              <==> && envelope.amendsLayerView && Affordable(old(rows), caps, envelope.layer, answers.spend)
                   && !Recorded(old(shot.attempts), envelope.fingerprint) && !answers.evidenceReadable
      ensures decision == Refused(OwnershipRefused)
              <==> && envelope.amendsLayerView && Affordable(old(rows), caps, envelope.layer, answers.spend)
                   && !Recorded(old(shot.attempts), envelope.fingerprint) && answers.evidenceReadable
                   && !answers.ownershipAdmits
      // Whatever already happened to this key, a settled or published replacement is recorded.
      ensures decision.Dispatched?
              <==> && envelope.amendsLayerView && Affordable(old(rows), caps, envelope.layer, answers.spend)
                   && !Recorded(old(shot.attempts), envelope.fingerprint)
                   && answers.evidenceReadable && answers.ownershipAdmits && old(Settles(envelope, answers))
      // A refused dispatch leaves the stop selected unless the replacement stage ran.
      ensures decision.Refused? && decision.reason != AdapterFailed ==>
                selected == Some(envelope) && archive == old(archive)
    {
      CapReachedIff(rows, caps, envelope.layer, answers.spend);
      if !envelope.amendsLayerView { return Refused(NotDispatchable); }
      var cap := CapRefusal(envelope.layer, answers.spend);
      if cap.Some? { return Refused(cap.value); }
      if Recorded(shot.attempts, envelope.fingerprint) { return Refused(RepeatedFinding); }
      if !answers.evidenceReadable { return Refused(EvidenceUnavailable); }
      if !answers.ownershipAdmits { return Refused(OwnershipRefused); }
      decision := DispatchLocked(envelope, answers);
    }

    /** The transaction under the key's lock. */
    method DispatchLocked(envelope: Envelope, answers: Answers) returns (decision: Decision)
      requires Valid() && selected == Some(envelope) && !Recorded(shot.attempts, envelope.fingerprint)
      modifies this, shot
      ensures (State(), decision) == old(State()).Locked(envelope, answers)
      ensures writes == old(writes) + old(State()).LockedPlan(envelope, answers)
      ensures Valid() && Conserved(envelope, |old(rows)| + 1)
      ensures forall k | k in old(archive) && k != |old(rows)| + 1 :: k in archive && archive[k] == old(archive)[k]
      ensures archive.Keys <= old(archive).Keys + {|old(rows)| + 1}
      ensures decision.Dispatched? ==>
                && decision.row == Row(|old(rows)| + 1, envelope.layer, envelope.digest, envelope.fingerprint)
                && rows == old(rows) + [decision.row]
                && shot.attempts
                   == old(shot.attempts) + [Attempt(envelope.fingerprint, envelope.before, envelope.evidence)]
                && |old(rows)| + 1 in archive
                && (|old(rows)| + 1 !in old(archive) ==> archive[|old(rows)| + 1] == envelope)
      ensures decision.Refused? ==>
                decision.reason == AdapterFailed && rows == old(rows) && shot.attempts == old(shot.attempts)
      ensures decision.Dispatched? <==> old(Settles(envelope, answers))
      // The replacement stage runs only for a key without a commit, after the stop is archived.
      ensures old(shot.HeadOf(KeyOf(envelope))) in {NoChain, PreparedHead, RunningHead}
                && KeyOf(envelope) !in old(shot.commits)
              ==> archive == old(archive)[|old(rows)| + 1 := envelope] && selected == answers.childStop
      ensures forall k | k != KeyOf(envelope) :: shot.HeadOf(k) == old(shot.HeadOf(k))
      ensures shot.commits - {KeyOf(envelope)} == old(shot.commits) - {KeyOf(envelope)}
    {
      ghost var l := State();
      LockedKeeps(l, envelope, answers);
      LockedFacts(l, envelope, answers);
      decision := Transact(envelope, answers);
      assert forall k :: shot.HeadOf(k) == State().HeadOf(k);
    }

    /** The transaction itself, write by write. */
    method Transact(envelope: Envelope, answers: Answers) returns (decision: Decision)
      requires Valid() && selected == Some(envelope) && !Recorded(shot.attempts, envelope.fingerprint)
      modifies this, shot
      ensures (State(), decision) == old(State()).Locked(envelope, answers)
      ensures writes == old(writes) + old(State()).LockedPlan(envelope, answers)
      ensures Valid()
    {
      var settled := SettleKey(envelope, answers);
      if !settled { return Refused(AdapterFailed); }
      decision := RecordCommitted(envelope);
    }

    /** Bring the key's receipt chain to its end. */
    method SettleKey(envelope: Envelope, answers: Answers) returns (settled: bool)
      modifies this, shot`heads, shot`commits
      ensures State() == old(State()).Settled(envelope, answers)
      ensures settled == old(State()).Settles(envelope, answers)
      ensures writes == old(writes) + old(State()).SettlePlan(envelope, answers)
    {
      var key := KeyOf(envelope);
      var head := shot.HeadOf(key);
      assert head == State().HeadOf(key);
      if head.OtherAttempt? || head.FailedHead? { return false; }
      if head.CommittedHead? { return true; }
      StartReceipt(key);
      if key !in shot.commits {
        settled := RunReplacement(envelope, answers);
      } else {
        PublishReceipt(key, CommittedHead);
        settled := true;
      }
    }

    /** Prepare the receipt and bring it to running, as far as that was not done before. */
    method StartReceipt(key: Key)
      modifies this`writes, shot`heads
      ensures State() == old(State()).Started(key)
      ensures writes == old(writes) + old(State()).StartPlan(key)
    {
      assert shot.HeadOf(key) == State().HeadOf(key);
      if shot.HeadOf(key).NoChain? { PublishReceipt(key, PreparedHead); }
      if shot.HeadOf(key).PreparedHead? { PublishReceipt(key, RunningHead); }
    }

    method PublishReceipt(key: Key, head: ReceiptHead)
      modifies this`writes, shot`heads
      ensures State() == old(State()).WithHead(key, head) && writes == old(writes) + [Receipt(key, head)]
      ensures shot.HeadOf(key) == head
    {
      shot.heads := shot.heads[key := head];
      writes := writes + [Receipt(key, head)];
    }

    method PublishCommit(key: Key)
      modifies this`writes, shot`commits
      ensures State() == old(State()).(commits := old(shot.commits) + {key})
      ensures writes == old(writes) + [CommitKey(key)]
    {
      shot.commits := shot.commits + {key};
      writes := writes + [CommitKey(key)];
    }

    /** Archive the stop and run the replacement stage, which may leave a stop of its own; then commit or fail. */
    method RunReplacement(envelope: Envelope, answers: Answers) returns (published: bool)
      modifies this, shot`heads, shot`commits
      ensures State() == old(State()).Concluded(envelope, answers) && published == answers.childPublished
      ensures writes == old(writes) + old(State()).StagePlan(envelope, answers)
    {
      ConsumeEnvelope(envelope);
      selected := answers.childStop;
      writes := writes + [StageEnded(answers.childStop)];
      published := answers.childPublished;
      if published {
        PublishCommit(KeyOf(envelope));
        PublishReceipt(KeyOf(envelope), CommittedHead);
      } else {
        PublishReceipt(KeyOf(envelope), FailedHead);
      }
    }

    /** Archive the dispatched stop so that the next stage can publish its own. */
    method ConsumeEnvelope(envelope: Envelope)
      modifies this
      ensures State() == old(State()).Consumed(envelope)
      ensures writes == old(writes) + old(State()).ConsumePlan(envelope)
    {
      archive := archive[|rows| + 1 := envelope];
      writes := writes + [ArchiveStop(|rows| + 1, envelope)];
      selected := None;
      writes := writes + [RemoveStop];
    }

    /** Spend the cause fingerprint, archive the stop unless its index is taken, append the ledger row. */
    method RecordCommitted(envelope: Envelope) returns (decision: Decision)
      requires Valid() && !Recorded(shot.attempts, envelope.fingerprint)
      modifies this, shot`attempts
      ensures (State(), decision) == old(State()).Committed(envelope)
      ensures writes == old(writes) + old(State()).RecordPlan(envelope)
      ensures decision == Dispatched(Row(|old(rows)| + 1, envelope.layer, envelope.digest, envelope.fingerprint))
      ensures rows == old(rows) + [decision.row] && shot.attempts == old(shot.attempts) + [AttemptOf(envelope)]
      ensures archive == if |old(rows)| + 1 in old(archive) then old(archive)
                         else old(archive)[|old(rows)| + 1 := envelope]
      ensures selected == if |old(rows)| + 1 in old(archive) then old(selected) else None
      ensures Valid()
    {
      FreshFingerprint(shot.attempts, AttemptOf(envelope));
      shot.attempts := shot.attempts + [AttemptOf(envelope)];
      writes := writes + [Spend(AttemptOf(envelope))];
      var index := |rows| + 1;
      if index !in archive { ConsumeEnvelope(envelope); }
      var row := Row(index, envelope.layer, envelope.digest, envelope.fingerprint);
      rows := rows + [row];
      writes := writes + [AppendRow(row)];
      return Dispatched(row);
    }
  }

  /** A stop is refused as repeated exactly when recording it would repeat a fingerprint. */
  lemma RepeatedIff(attempts: seq<Attempt>, a: Attempt)
    requires DistinctFingerprints(attempts)
    ensures Recorded(attempts, a.fingerprint) <==> !DistinctFingerprints(attempts + [a])
  {
    if Recorded(attempts, a.fingerprint) {
      var prior :| prior in attempts && prior.fingerprint == a.fingerprint;
      var i :| 0 <= i < |attempts| && attempts[i] == prior;
      assert (attempts + [a])[i].fingerprint == (attempts + [a])[|attempts|].fingerprint;
    } else {
      FreshFingerprint(attempts, a);
    }
  }

  lemma FreshFingerprint(attempts: seq<Attempt>, a: Attempt)
    requires DistinctFingerprints(attempts) && !Recorded(attempts, a.fingerprint)
    ensures DistinctFingerprints(attempts + [a])
  {
    forall i | 0 <= i < |attempts|
      ensures attempts[i].fingerprint != a.fingerprint
    {
      assert attempts[i] in attempts;
    }
  }

  /** A dispatched row stays within the caps. */
  lemma DispatchKeepsCaps(rows: seq<Row>, row: Row, caps: Caps)
    requires WithinCaps(rows, caps) && |rows| < caps.maxDispatches
    requires |LayerPositions(rows, row.layer)| < caps.maxPerLayer
    ensures WithinCaps(rows + [row], caps)
  {
    AffordableIff(rows, caps.(maxUsd := None), row, 0.0);
  }

  /** The stop is still selected, or archived under the index. */
  predicate ConservedIn(l: Ledger, envelope: Envelope, index: nat) {
    l.selected == Some(envelope) || (index in l.archive && l.archive[index] == envelope)
  }

  /** What an answer leaves alone and what it adds. */
  ghost predicate AnswerKeeps(l: Ledger, envelope: Envelope, l': Ledger, decision: Decision) {
    var index := |l.rows| + 1;
    && ConservedIn(l', envelope, index)
    && (forall k | k in l.archive && k != index :: k in l'.archive && l'.archive[k] == l.archive[k])
    && l'.archive.Keys <= l.archive.Keys + {index}
    && match decision
       case Refused(_) => l'.rows == l.rows && l'.attempts == l.attempts
       case Dispatched(row) =>
         && row == Row(index, envelope.layer, envelope.digest, envelope.fingerprint)
         && l'.rows == l.rows + [row]
         && l'.attempts == l.attempts + [AttemptOf(envelope)]
         && index in l'.archive && (index !in l.archive ==> l'.archive[index] == envelope)
  }

  lemma CommittedKeeps(l: Ledger, envelope: Envelope, m: Ledger)
    requires m.rows == l.rows && m.attempts == l.attempts
    requires || (m.archive == l.archive && m.selected == Some(envelope))
             || m.archive == l.archive[|l.rows| + 1 := envelope]
    ensures AnswerKeeps(l, envelope, m.Committed(envelope).0, m.Committed(envelope).1)
  {
  }

  /** Up to the record the rows, the attempts and the other archives are untouched. */
  lemma SettledFacts(l: Ledger, envelope: Envelope, answers: Answers)
    ensures var m := l.Settled(envelope, answers);
            && m.rows == l.rows && m.attempts == l.attempts
            && if StageRuns(l, envelope) then
                 m.archive == l.archive[|l.rows| + 1 := envelope] && m.selected == answers.childStop
               else m.archive == l.archive && m.selected == l.selected
  {
    StartedFacts(l, KeyOf(envelope));
  }

  lemma StartedFacts(l: Ledger, key: Key)
    ensures l.Started(key) == l.(heads := l.Started(key).heads)
    ensures forall k | k != key :: l.Started(key).HeadOf(k) == l.HeadOf(k)
  {
  }

  /** No other key is touched. */
  lemma SettledKey(l: Ledger, envelope: Envelope, answers: Answers, k: Key)
    requires k != KeyOf(envelope)
    ensures var m := l.Settled(envelope, answers);
            m.HeadOf(k) == l.HeadOf(k) && (k in m.commits <==> k in l.commits)
  {
    StartedFacts(l, KeyOf(envelope));
  }

  /** The replacement stage runs exactly for an open key without a commit. */
  predicate StageRuns(l: Ledger, envelope: Envelope) {
    l.HeadOf(KeyOf(envelope)) in {NoChain, PreparedHead, RunningHead} && KeyOf(envelope) !in l.commits
  }

  lemma LockedKeeps(l: Ledger, envelope: Envelope, answers: Answers)
    requires l.selected == Some(envelope)
    ensures AnswerKeeps(l, envelope, l.Locked(envelope, answers).0, l.Locked(envelope, answers).1)
  {
    SettledFacts(l, envelope, answers);
    CommittedKeeps(l, envelope, l.Settled(envelope, answers));
  }

  lemma LockedFacts(l: Ledger, envelope: Envelope, answers: Answers)
    ensures var (l', decision) := l.Locked(envelope, answers);
            var key := KeyOf(envelope);
            && (decision.Dispatched? <==> l.Settles(envelope, answers))
            && (decision.Refused? ==> decision.reason == AdapterFailed)
            && (forall k | k != key :: l'.HeadOf(k) == l.HeadOf(k))
            && l'.commits - {key} == l.commits - {key}
            && (StageRuns(l, envelope) ==>
                  l'.archive == l.archive[|l.rows| + 1 := envelope] && l'.selected == answers.childStop)
  {
    SettledFacts(l, envelope, answers);
    forall k | k != KeyOf(envelope)
      ensures var m := l.Settled(envelope, answers);
              m.HeadOf(k) == l.HeadOf(k) && (k in m.commits <==> k in l.commits)
    {
      SettledKey(l, envelope, answers, k);
    }
  }

  /** What one answer does to the ledger, whichever way it goes. */
  lemma AnsweredKeeps(l: Ledger, caps: Caps, envelope: Envelope, answers: Answers)
    requires l.selected == Some(envelope)
    ensures var (l', decision) := l.Answered(caps, envelope, answers);
            && AnswerKeeps(l, envelope, l', decision)
            && (decision.Dispatched? ==>
                  && Affordable(l.rows, caps, envelope.layer, answers.spend)
                  && !Recorded(l.attempts, envelope.fingerprint))
  {
    CapReachedIff(l.rows, caps, envelope.layer, answers.spend);
    LockedKeeps(l, envelope, answers);
  }

  /** The archive index of a failed dispatch is taken again by the next dispatch: of two stops given
      in turn, both to stages that publish nothing, the first is left nowhere.  Conservation over
      several calls therefore needs the driver to stop after an adapter failure, as it does. */
  method FailedArchiveIsOverwritten(first: Envelope, second: Envelope, shot: Shot, caps: Caps)
    returns (c: RunController)
    requires shot.Valid() && shot.attempts == [] && shot.heads == map[] && shot.commits == {}
    requires caps.maxDispatches >= 1 && caps.maxPerLayer >= 1 && caps.maxUsd.None?
    requires first.amendsLayerView && second.amendsLayerView && KeyOf(first) != KeyOf(second)
    modifies shot
    ensures c.archive == map[1 := second] && c.selected == None && c.rows == []
  {
    c := new RunController(shot, caps, [], map[]);
    c.selected := Some(first);
    assert !c.Settles(first, Answers(0.0, true, true, false, None));
    var _ := c.DispatchLocked(first, Answers(0.0, true, true, false, None));
    assert KeyOf(second) !in shot.commits by {
      assert KeyOf(second) !in shot.commits - {KeyOf(first)};
    }
    assert shot.HeadOf(KeyOf(second)) == NoChain;
    c.selected := Some(second);
    assert !c.Settles(second, Answers(0.0, true, true, false, None));
    assert map[1 := first][1 := second] == map[1 := second];
    var _ := c.DispatchLocked(second, Answers(0.0, true, true, false, None));
  }
}
