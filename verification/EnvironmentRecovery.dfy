/**
  Re-verification after an external repair: receipts, a commit record and stored probe results,
  each published atomically, with a crash possible between any two publications.

  A digest is taken to be injective, so a record's digest is the record itself: a receipt links
  to its predecessor by value and a commit names its running receipt by value.
 */
module EnvironmentRecovery {
  import opened Common

  /** A probe result; `identity` stands for the probe id and the probe spec digest. */
  datatype ProbeResult = ProbeResult(identity: int, ok: bool, environment: int)

  datatype Phase = Prepared | Running | Terminal

  datatype Disposition = RepeatableReadOnly | ReconcileCommitOnly | HaltOnUncertainty

  datatype Receipt = Receipt(
    attempt: int,
    phase: Phase,
    revision: nat,
    operations: seq<ProbeResult>,
    disposition: Disposition,
    predecessor: Option<Receipt>,
    settlement: Option<Settlement>)

  /** What a committed terminal receipt adds. */
  datatype Settlement = Settlement(afterEnvironment: int, evidence: seq<ProbeResult>, marker: Commit)

  datatype Commit = Commit(running: Receipt, revision: nat, after: ProbeResult)

  /** Everything that survives a crash. */
  datatype Durable = Durable(chain: seq<Receipt>, commit: Option<Commit>, results: set<ProbeResult>)

  /** The attempt an invocation resolves: its identity and the probe it must repeat. */
  datatype Attempt = Attempt(id: int, identity: int)

  datatype Refusal =
    | CommitWithoutChain
    | AnotherAttempt
    | TerminalNotProven
    | CommitBeforeRunning
    | Halted
    | CommitNamesAnotherReceipt
    | CommitMissing
    | ForeignOperation
    | AmbiguousPassing
    | ProbeIdentityChanged

  datatype Outcome = Settled(receipt: Receipt) | StillFailing(receipt: Receipt) | Refused(why: Refusal)

  // ---- receipts --------------------------------------------------------------------------

  function PreparedReceipt(a: Attempt): Receipt {
    Receipt(a.id, Prepared, 0, [], RepeatableReadOnly, None, None)
  }

  function RunningSuccessor(r: Receipt, more: seq<ProbeResult>, disposition: Disposition): Receipt {
    Receipt(r.attempt, Running, r.revision + 1, r.operations + more, disposition, Some(r), None)
  }

  function TerminalSuccessor(r: Receipt, c: Commit): Receipt {
    Receipt(r.attempt, Terminal, r.revision + 1, r.operations, ReconcileCommitOnly, Some(r),
            Some(Settlement(c.after.environment, [c.after], c)))
  }

  function Passing(ops: seq<ProbeResult>): seq<ProbeResult> {
    if ops == [] then [] else (if ops[0].ok then [ops[0]] else []) + Passing(ops[1..])
  }

  /** The checks made before a terminal receipt is believed. */
  predicate CommittedTerminalProven(a: Attempt, s: Durable) {
    && s.chain != []
    && var terminal := s.chain[|s.chain| - 1];
       && terminal.phase.Terminal? && terminal.settlement.Some?
       && s.commit.Some?
       && var c := s.commit.value;
          && c.running in s.chain
          && c.running.phase.Running? && c.running.revision == c.revision
          && c.after in s.results
          && CommitMatches(a, c)
          && terminal.predecessor == Some(c.running)
          && terminal.settlement.value.marker == c
          && terminal.settlement.value.afterEnvironment == c.after.environment
          && terminal.settlement.value.evidence == [c.after]
          && c.after in terminal.operations
  }

  /** A commit binds a passing result of the attempt's own probe that its running receipt cites. */
  predicate CommitMatches(a: Attempt, c: Commit) {
    && c.running.attempt == a.id
    && c.after.ok && c.after.identity == a.identity
    && c.after in c.running.operations
  }

  // ---- one invocation, as the writes it makes -------------------------------------------------

  datatype Write = PutReceipt(receipt: Receipt) | PutCommit(commit: Commit) | PutResult(result: ProbeResult)

  function Apply(s: Durable, w: Write): Durable {
    match w
    case PutReceipt(r) => s.(chain := s.chain + [r])
    case PutCommit(c) => s.(commit := Some(c))
    case PutResult(e) => s.(results := s.results + {e})
  }

  function ApplyAll(s: Durable, ws: seq<Write>): Durable
    decreases |ws|
  {
    if ws == [] then s else ApplyAll(Apply(s, ws[0]), ws[1..])
  }

  datatype Plan = Plan(writes: seq<Write>, outcome: Outcome, probed: bool)

  function Refuse(why: Refusal): Plan {
    Plan([], Refused(why), false)
  }

  function After(w: Write, p: Plan): Plan {
    p.(writes := [w] + p.writes)
  }

  /** The writes of an invocation that starts in `s` and whose probe would answer `probe`. */
  function PlanOf(a: Attempt, s: Durable, probe: ProbeResult): Plan {
    if s.chain == [] then
      if s.commit.Some? then Refuse(CommitWithoutChain)
      else After(PutReceipt(PreparedReceipt(a)), FromPrepared(a, s, PreparedReceipt(a), probe))
    else
      var current := s.chain[|s.chain| - 1];
      if current.attempt != a.id then Refuse(AnotherAttempt)
      else if current.phase.Terminal? then
        if CommittedTerminalProven(a, s) then Plan([], Settled(current), false) else Refuse(TerminalNotProven)
      else if current.phase.Prepared? then FromPrepared(a, s, current, probe)
      else FromRunning(a, s, current, probe)
  }

  function FromPrepared(a: Attempt, s: Durable, current: Receipt, probe: ProbeResult): Plan {
    if s.commit.Some? then Refuse(CommitBeforeRunning)
    else
      var running := RunningSuccessor(current, [], current.disposition);
      After(PutReceipt(running), FromRunning(a, s, running, probe))
  }

  function FromRunning(a: Attempt, s: Durable, current: Receipt, probe: ProbeResult): Plan {
    if current.disposition.HaltOnUncertainty? then Refuse(Halted)
    else if s.commit.Some? then
      var c := s.commit.value;
      if CommitBinds(a, s, current, c)
      then Plan([PutReceipt(TerminalSuccessor(current, c))], Settled(TerminalSuccessor(current, c)), false)
      else Refuse(CommitNamesAnotherReceipt)
    else if current.disposition.ReconcileCommitOnly? then Refuse(CommitMissing)
    else if exists e | e in current.operations :: e !in s.results || e.identity != a.identity then
      Refuse(ForeignOperation)
    else
      var passing := Passing(current.operations);
      if |passing| > 1 then Refuse(AmbiguousPassing)
      else if |passing| == 1 then Conclude(current, passing[0], false)
      else After(PutResult(probe), WithProbe(a, current, probe))
  }

  predicate CommitBinds(a: Attempt, s: Durable, current: Receipt, c: Commit) {
    c.running == current && c.revision == current.revision && c.after in s.results && CommitMatches(a, c)
  }

  function WithProbe(a: Attempt, current: Receipt, probe: ProbeResult): Plan {
    if probe.identity != a.identity then
      Plan([PutReceipt(RunningSuccessor(current, [probe], HaltOnUncertainty))], Refused(ProbeIdentityChanged), true)
    else if probe in current.operations then Conclude(current, probe, true)
    else
      var cited := RunningSuccessor(current, [probe], current.disposition);
      After(PutReceipt(cited), Conclude(cited, probe, true))
  }

  function Conclude(running: Receipt, after: ProbeResult, probed: bool): Plan {
    if !after.ok then Plan([], StillFailing(running), probed) else CommitFrom(running, after, probed)
  }

  function CommitFrom(running: Receipt, after: ProbeResult, probed: bool): Plan {
    var c := Commit(running, running.revision, after);
    Plan([PutCommit(c), PutReceipt(TerminalSuccessor(running, c))], Settled(TerminalSuccessor(running, c)), probed)
  }

  /** An invocation whose process dies once `survived` of its writes are durable. */
  function Invoke(a: Attempt, s: Durable, probe: ProbeResult, survived: nat): Durable {
    var ws := PlanOf(a, s, probe).writes;
    ApplyAll(s, if survived < |ws| then ws[..survived] else ws)
  }

  datatype Invocation = Invocation(probe: ProbeResult, survived: nat)

  function History(a: Attempt, s: Durable, calls: seq<Invocation>): Durable
    decreases |calls|
  {
    if calls == [] then s else History(a, Invoke(a, s, calls[0].probe, calls[0].survived), calls[1..])
  }

  const EMPTY: Durable := Durable([], None, {})

  // ---- the store -------------------------------------------------------------------------

  /** The durable state of one attempt, and the invocation that advances it write by write. */
  class RecoveryStore {
    var chain: seq<Receipt>
    var commit: Option<Commit>
    var results: set<ProbeResult>
    /** Writes the current process still completes before it dies. */
    var lifetime: nat

    function State(): Durable
      reads this
    {
      Durable(chain, commit, results)
    }

    constructor ()
      ensures State() == EMPTY
    {
      chain, commit, results, lifetime := [], None, {}, 0;
    }

    /** One atomic publication, unless the process dies first. */
    method Publish(w: Write) returns (alive: bool)
      modifies this
      ensures alive <==> old(lifetime) > 0
      ensures State() == if alive then Apply(old(State()), w) else old(State())
      ensures alive ==> lifetime == old(lifetime) - 1
      ensures !alive ==> lifetime == 0
    {
      if lifetime == 0 { return false; }
      lifetime := lifetime - 1;
      match w {
        case PutReceipt(r) => chain := chain + [r];
        case PutCommit(c) => commit := Some(c);
        case PutResult(e) => results := results + {e};
      }
      return true;
    }

    method Execute(a: Attempt, probe: ProbeResult) returns (outcome: Option<Outcome>, probed: bool)
      modifies this
      ensures Survived(State(), old(State()), PlanOf(a, old(State()), probe), old(lifetime), outcome, probed)
      // One call is one step of the histories below.
      ensures State() == Invoke(a, old(State()), probe, old(lifetime))
      // If it lives to answer, the answer is what the probe says.
      ensures Consistent(a, old(State())) && outcome.Some? ==>
                AnswersProbe(a, old(State()), probe, outcome.value, probed)
    {
      outcome, probed := Advance(a, probe);
      if Consistent(a, old(State())) { OutcomeExactly(a, old(State()), probe); }
    }

    /** From whatever the store holds. */
    method Advance(a: Attempt, probe: ProbeResult) returns (outcome: Option<Outcome>, probed: bool)
      modifies this
      ensures Survived(State(), old(State()), PlanOf(a, old(State()), probe), old(lifetime), outcome, probed)
    {
      if chain == [] {
        if commit.Some? { return Some(Refused(CommitWithoutChain)), false; }
        outcome, probed := ExecuteFromNothing(a, probe);
      } else {
        var current := chain[|chain| - 1];
        if current.attempt != a.id { return Some(Refused(AnotherAttempt)), false; }
        if current.phase.Terminal? {
          if CommittedTerminalProven(a, State()) { return Some(Settled(current)), false; }
          return Some(Refused(TerminalNotProven)), false;
        }
        if current.phase.Prepared? {
          outcome, probed := ExecuteFromPrepared(a, old(State()), current, probe);
        } else {
          outcome, probed := ExecuteFromRunning(a, old(State()), current, probe);
        }
      }
    }

    /** Publish the prepared receipt. */
    method ExecuteFromNothing(a: Attempt, probe: ProbeResult) returns (outcome: Option<Outcome>, probed: bool)
      modifies this
      ensures Survived(State(), old(State()),
                       After(PutReceipt(PreparedReceipt(a)), FromPrepared(a, old(State()), PreparedReceipt(a), probe)),
                       old(lifetime), outcome, probed)
    {
      var current := PreparedReceipt(a);
      var alive := Publish(PutReceipt(current));
      if !alive { return None, false; }
      outcome, probed := ExecuteFromPrepared(a, old(State()), current, probe);
      SurvivedAfter(PutReceipt(current), FromPrepared(a, old(State()), current, probe), old(State()), State(),
                    old(lifetime), outcome, probed);
    }

    /** Publish the first running receipt; `s` is the state the invocation read. */
    method ExecuteFromPrepared(a: Attempt, ghost s: Durable, current: Receipt, probe: ProbeResult)
      returns (outcome: Option<Outcome>, probed: bool)
      requires s.commit == commit && s.results == results
      modifies this
      ensures Survived(State(), old(State()), FromPrepared(a, s, current, probe), old(lifetime), outcome, probed)
    {
      if commit.Some? { return Some(Refused(CommitBeforeRunning)), false; }
      var running := RunningSuccessor(current, [], current.disposition);
      var alive := Publish(PutReceipt(running));
      if !alive { return None, false; }
      outcome, probed := ExecuteFromRunning(a, s, running, probe);
      SurvivedAfter(PutReceipt(running), FromRunning(a, s, running, probe), old(State()), State(), old(lifetime),
                    outcome, probed);
    }

    method ExecuteFromRunning(a: Attempt, ghost s: Durable, current: Receipt, probe: ProbeResult)
      returns (outcome: Option<Outcome>, probed: bool)
      requires s.commit == commit && s.results == results
      modifies this
      ensures Survived(State(), old(State()), FromRunning(a, s, current, probe), old(lifetime), outcome, probed)
    {
      if current.disposition.HaltOnUncertainty? { return Some(Refused(Halted)), false; }
      if commit.Some? {
        var c := commit.value;
        if !CommitBinds(a, State(), current, c) { return Some(Refused(CommitNamesAnotherReceipt)), false; }
        var alive := Publish(PutReceipt(TerminalSuccessor(current, c)));
        return if alive then Some(Settled(TerminalSuccessor(current, c))) else None, false;
      }
      if current.disposition.ReconcileCommitOnly? { return Some(Refused(CommitMissing)), false; }
      if exists e | e in current.operations :: e !in results || e.identity != a.identity {
        return Some(Refused(ForeignOperation)), false;
      }
      var passing := Passing(current.operations);
      if |passing| > 1 { return Some(Refused(AmbiguousPassing)), false; }
      if |passing| == 1 {
        outcome := ExecuteConclude(current, passing[0], false);
        probed := false;
      } else {
        var stored := Publish(PutResult(probe));
        if !stored { return None, true; }
        outcome := ExecuteWithProbe(a, current, probe);
        probed := true;
        SurvivedAfter(PutResult(probe), WithProbe(a, current, probe), old(State()), State(), old(lifetime), outcome,
                      true);
      }
    }

    method ExecuteWithProbe(a: Attempt, current: Receipt, probe: ProbeResult) returns (outcome: Option<Outcome>)
      modifies this
      ensures Survived(State(), old(State()), WithProbe(a, current, probe), old(lifetime), outcome, true)
    {
      if probe.identity != a.identity {
        var halted := Publish(PutReceipt(RunningSuccessor(current, [probe], HaltOnUncertainty)));
        return if halted then Some(Refused(ProbeIdentityChanged)) else None;
      }
      if probe in current.operations {
        outcome := ExecuteConclude(current, probe, true);
      } else {
        var cited := RunningSuccessor(current, [probe], current.disposition);
        var alive := Publish(PutReceipt(cited));
        if !alive { return None; }
        outcome := ExecuteConclude(cited, probe, true);
        SurvivedAfter(PutReceipt(cited), Conclude(cited, probe, true), old(State()), State(), old(lifetime), outcome,
                      true);
      }
    }

    /** A failing result leaves the receipt running; a passing one is committed, then settled. */
    method ExecuteConclude(running: Receipt, after: ProbeResult, ghost probed: bool)
      returns (outcome: Option<Outcome>)
      modifies this
      ensures Survived(State(), old(State()), Conclude(running, after, probed), old(lifetime), outcome, probed)
    {
      if !after.ok { return Some(StillFailing(running)); }
      var c := Commit(running, running.revision, after);
      var terminal := TerminalSuccessor(running, c);
      var marked := Publish(PutCommit(c));
      if !marked { return None; }
      var closed := Publish(PutReceipt(terminal));
      outcome := if closed then Some(Settled(terminal)) else None;
      SurvivedAfter(PutCommit(c), Plan([PutReceipt(terminal)], Settled(terminal), probed), old(State()), State(),
                    old(lifetime), outcome, probed);
    }
  }

  /** What survives of a plan: all of it, or the writes made before the process died. */
  ghost predicate Survived(now: Durable, before: Durable, p: Plan, life: nat, outcome: Option<Outcome>, probed: bool) {
    if life >= |p.writes| then
      now == ApplyAll(before, p.writes) && outcome == Some(p.outcome) && probed == p.probed
    else
      now == ApplyAll(before, p.writes[..life]) && outcome == None && (probed ==> p.probed)
  }

  lemma SurvivedAfter(w: Write, rest: Plan, before: Durable, now: Durable, life: nat, outcome: Option<Outcome>,
                      probed: bool)
    requires life > 0 && Survived(now, Apply(before, w), rest, life - 1, outcome, probed)
    ensures Survived(now, before, After(w, rest), life, outcome, probed)
  {
    var ws := [w] + rest.writes;
    assert ws[1..] == rest.writes;
    if life < |ws| {
      assert ws[..life][1..] == rest.writes[..life - 1];
    }
  }

  // ---- what every reachable state satisfies ------------------------------------------------------

  /** Receipts link, phases only advance, operation references only grow. */
  ghost predicate Linked(a: Attempt, chain: seq<Receipt>) {
    && (chain != [] ==> chain[0] == PreparedReceipt(a))
    && forall i | 0 < i < |chain| ::
         && chain[i].attempt == a.id
         && chain[i].revision == i
         && chain[i].predecessor == Some(chain[i - 1])
         && chain[i - 1].operations <= chain[i].operations
         && (if i < |chain| - 1 then chain[i].phase.Running? && chain[i].disposition.RepeatableReadOnly?
             else !chain[i].phase.Prepared?)
  }

  /** Every cited result is stored, of the attempt's own probe and cited once; only the last can pass. */
  ghost predicate CitesOwnProbe(a: Attempt, ops: seq<ProbeResult>, results: set<ProbeResult>) {
    && (forall e | e in ops :: e in results && e.identity == a.identity)
    && (forall i, j | 0 <= i < j < |ops| :: ops[i] != ops[j])
    && (forall i | 0 <= i < |ops| - 1 :: !ops[i].ok)
  }

  /** The receipt a commit must name: the last running one. */
  function LastRunning(chain: seq<Receipt>): Receipt
    requires |chain| >= 2
  {
    if chain[|chain| - 1].phase.Terminal? then chain[|chain| - 2] else chain[|chain| - 1]
  }

  ghost predicate Stored(ops: seq<ProbeResult>, results: set<ProbeResult>) {
    forall e | e in ops :: e in results
  }

  ghost predicate Consistent(a: Attempt, s: Durable) {
    && Linked(a, s.chain)
    && (forall i | 0 <= i < |s.chain| :: Stored(s.chain[i].operations, s.results))
    && (|s.chain| < 2 ==> s.commit.None?)
    && (|s.chain| >= 2 ==> RunningConsistent(a, s))
  }

  ghost predicate RunningConsistent(a: Attempt, s: Durable)
    requires |s.chain| >= 2
  {
    var last := s.chain[|s.chain| - 1];
    var running := LastRunning(s.chain);
    if last.disposition.HaltOnUncertainty? then
      last.phase.Running? && s.commit.None? && HaltingOperations(a, s.chain)
    else
      && running.phase.Running? && running.disposition.RepeatableReadOnly?
      && CitesOwnProbe(a, running.operations, s.results)
      && (last.phase.Terminal? ==> s.commit.Some? && last == TerminalSuccessor(running, s.commit.value))
      && (s.commit.Some? ==>
            && CommitBinds(a, s, running, s.commit.value))
  }

  /** A halted attempt cites exactly one result of another probe, last, and no earlier passing one. */
  ghost predicate HaltingOperations(a: Attempt, chain: seq<Receipt>)
    requires chain != []
  {
    var ops := chain[|chain| - 1].operations;
    && ops != []
    && ops[|ops| - 1].identity != a.identity
    && (forall i | 0 <= i < |ops| - 1 :: !ops[i].ok && ops[i].identity == a.identity)
  }

  lemma {:induction false} PassingOf(ops: seq<ProbeResult>)
    requires forall i | 0 <= i < |ops| - 1 :: !ops[i].ok
    ensures Passing(ops) == if ops != [] && ops[|ops| - 1].ok then [ops[|ops| - 1]] else []
  {
    if |ops| > 1 {
      PassingOf(ops[1..]);
    }
  }

  /** Publishing a receipt, a result or a commit where an invocation does keeps the state consistent. */
  lemma StartsConsistent(a: Attempt, s: Durable)
    requires Consistent(a, s) && s.chain == []
    ensures Consistent(a, Apply(s, PutReceipt(PreparedReceipt(a))))
  {
  }

  lemma FirstRunningConsistent(a: Attempt, s: Durable)
    requires Consistent(a, s) && |s.chain| == 1
    ensures var r := RunningSuccessor(s.chain[0], [], s.chain[0].disposition);
            Consistent(a, Apply(s, PutReceipt(r)))
  {
  }

  lemma ResultConsistent(a: Attempt, s: Durable, e: ProbeResult)
    requires Consistent(a, s)
    ensures Consistent(a, Apply(s, PutResult(e)))
  {
  }

  /** A running, uncommitted, unhalted head without a passing result. */
  ghost predicate Open(a: Attempt, s: Durable) {
    && Consistent(a, s) && |s.chain| >= 2 && s.commit.None?
    && s.chain[|s.chain| - 1].phase.Running?
    && s.chain[|s.chain| - 1].disposition.RepeatableReadOnly?
  }

  function Head(s: Durable): Receipt
    requires s.chain != []
  {
    s.chain[|s.chain| - 1]
  }

  lemma LinkedGrows(a: Attempt, chain: seq<Receipt>, r: Receipt)
    requires Linked(a, chain) && |chain| >= 2
    requires chain[|chain| - 1].phase.Running? && chain[|chain| - 1].disposition.RepeatableReadOnly?
    requires r.attempt == a.id && r.revision == chain[|chain| - 1].revision + 1 && !r.phase.Prepared?
    requires r.predecessor == Some(chain[|chain| - 1]) && chain[|chain| - 1].operations <= r.operations
    ensures Linked(a, chain + [r])
  {
    var next := chain + [r];
    forall i | 0 < i < |next|
      ensures && next[i].attempt == a.id
              && next[i].revision == i
              && next[i].predecessor == Some(next[i - 1])
              && next[i - 1].operations <= next[i].operations
              && (if i < |next| - 1 then next[i].phase.Running? && next[i].disposition.RepeatableReadOnly?
                  else !next[i].phase.Prepared?)
    {
      if i < |chain| { assert next[i] == chain[i] && next[i - 1] == chain[i - 1]; }
    }
  }

  lemma StoredGrows(chain: seq<Receipt>, r: Receipt, results: set<ProbeResult>)
    requires forall i | 0 <= i < |chain| :: Stored(chain[i].operations, results)
    requires Stored(r.operations, results)
    ensures forall i | 0 <= i < |chain + [r]| :: Stored((chain + [r])[i].operations, results)
  {
  }

  lemma CitingConsistent(a: Attempt, s: Durable, e: ProbeResult, disposition: Disposition)
    requires Open(a, s) && Passing(Head(s).operations) == [] && e in s.results && e !in Head(s).operations
    requires if e.identity == a.identity then disposition.RepeatableReadOnly? else disposition.HaltOnUncertainty?
    ensures Consistent(a, Apply(s, PutReceipt(RunningSuccessor(Head(s), [e], disposition))))
  {
    var ops := Head(s).operations;
    PassingOf(ops);
    var r := RunningSuccessor(Head(s), [e], disposition);
    assert r.operations == ops + [e];
    LinkedGrows(a, s.chain, r);
    assert Stored(ops, s.results);
    StoredGrows(s.chain, r, s.results);
    assert CitesOwnProbe(a, ops, s.results);
    CitingRunning(a, s, e, r);
  }

  lemma CitingRunning(a: Attempt, s: Durable, e: ProbeResult, r: Receipt)
    requires |s.chain| >= 2 && s.commit.None? && e in s.results && e !in Head(s).operations
    requires CitesOwnProbe(a, Head(s).operations, s.results)
    requires forall i | 0 <= i < |Head(s).operations| :: !Head(s).operations[i].ok
    requires r.phase.Running? && r.operations == Head(s).operations + [e]
    requires if e.identity == a.identity then r.disposition.RepeatableReadOnly? else r.disposition.HaltOnUncertainty?
    ensures RunningConsistent(a, Apply(s, PutReceipt(r)))
  {
    var next := Apply(s, PutReceipt(r));
    assert Head(next) == r && LastRunning(next.chain) == r;
  }

  lemma CommitConsistent(a: Attempt, s: Durable, e: ProbeResult)
    requires Open(a, s) && e in Head(s).operations && e.ok
    ensures Consistent(a, Apply(s, PutCommit(Commit(Head(s), Head(s).revision, e))))
  {
  }

  /** Closing a committed, running chain. */
  lemma TerminalConsistent(a: Attempt, s: Durable)
    requires Consistent(a, s) && |s.chain| >= 2 && Head(s).phase.Running? && s.commit.Some?
    ensures Consistent(a, Apply(s, PutReceipt(TerminalSuccessor(Head(s), s.commit.value))))
  {
    var r := TerminalSuccessor(Head(s), s.commit.value);
    LinkedGrows(a, s.chain, r);
    StoredGrows(s.chain, r, s.results);
    assert LastRunning(s.chain + [r]) == Head(s);
  }

  /** Every prefix of the writes of an invocation leaves a consistent state. */
  lemma ConcludeConsistent(a: Attempt, s: Durable, e: ProbeResult, probed: bool, k: nat)
    requires Open(a, s) && e in Head(s).operations && k <= |Conclude(Head(s), e, probed).writes|
    ensures Consistent(a, ApplyAll(s, Conclude(Head(s), e, probed).writes[..k]))
  {
    if e.ok {
      var c := Commit(Head(s), Head(s).revision, e);
      CommitConsistent(a, s, e);
      TerminalConsistent(a, Apply(s, PutCommit(c)));
      Two(s, PutCommit(c), PutReceipt(TerminalSuccessor(Head(s), c)), k);
    }
  }

  lemma Two(s: Durable, v: Write, w: Write, k: nat)
    requires k <= 2
    ensures ApplyAll(s, [v, w][..k]) == if k == 0 then s else if k == 1 then Apply(s, v) else Apply(Apply(s, v), w)
  {
    if k == 1 { assert [v, w][..1] == [v]; One(s, v); }
    if k == 2 {
      assert [v, w][..2] == [v, w] && [v, w][1..] == [w];
      One(Apply(s, v), w);
    }
  }

  lemma One(s: Durable, w: Write)
    ensures ApplyAll(s, [w]) == Apply(s, w)
  {
    assert [w][1..] == [];
  }

  lemma AfterPrefix(s: Durable, w: Write, rest: Plan, k: nat)
    requires 0 < k <= |After(w, rest).writes|
    ensures ApplyAll(s, After(w, rest).writes[..k]) == ApplyAll(Apply(s, w), rest.writes[..k - 1])
  {
    var ws := [w] + rest.writes;
    assert ws[..k][1..] == rest.writes[..k - 1];
  }

  lemma WithProbeConsistent(a: Attempt, s: Durable, probe: ProbeResult, k: nat)
    requires Open(a, s) && Passing(Head(s).operations) == [] && probe in s.results
    requires k <= |WithProbe(a, Head(s), probe).writes|
    ensures Consistent(a, ApplyAll(s, WithProbe(a, Head(s), probe).writes[..k]))
  {
    if probe.identity != a.identity {
      var r := RunningSuccessor(Head(s), [probe], HaltOnUncertainty);
      CitingConsistent(a, s, probe, HaltOnUncertainty);
      if k > 0 { AfterPrefix(s, PutReceipt(r), Plan([], Refused(ProbeIdentityChanged), true), k); }
    } else if probe in Head(s).operations {
      ConcludeConsistent(a, s, probe, true, k);
    } else {
      var r := RunningSuccessor(Head(s), [probe], Head(s).disposition);
      CitingConsistent(a, s, probe, Head(s).disposition);
      if k > 0 {
        AfterPrefix(s, PutReceipt(r), Conclude(r, probe, true), k);
        ConcludeConsistent(a, Apply(s, PutReceipt(r)), probe, true, k - 1);
      }
    }
  }

  lemma FromRunningConsistent(a: Attempt, s: Durable, probe: ProbeResult, k: nat)
    requires Consistent(a, s) && |s.chain| >= 2 && Head(s).phase.Running?
    requires k <= |FromRunning(a, s, Head(s), probe).writes|
    ensures Consistent(a, ApplyAll(s, FromRunning(a, s, Head(s), probe).writes[..k]))
  {
    if s.commit.Some? {
      SettlingConsistent(a, s, probe, k);
    } else if Head(s).disposition.RepeatableReadOnly? {
      PassingOf(Head(s).operations);
      if Passing(Head(s).operations) != [] {
        ConcludeConsistent(a, s, Passing(Head(s).operations)[0], false, k);
      } else {
        assert FromRunning(a, s, Head(s), probe) == After(PutResult(probe), WithProbe(a, Head(s), probe));
        ProbingConsistent(a, s, probe, k);
      }
    }
  }

  lemma SettlingConsistent(a: Attempt, s: Durable, probe: ProbeResult, k: nat)
    requires Consistent(a, s) && |s.chain| >= 2 && Head(s).phase.Running? && s.commit.Some?
    requires k <= |FromRunning(a, s, Head(s), probe).writes|
    ensures Consistent(a, ApplyAll(s, FromRunning(a, s, Head(s), probe).writes[..k]))
  {
    var c := s.commit.value;
    var r := TerminalSuccessor(Head(s), c);
    if k == 1 {
      assert FromRunning(a, s, Head(s), probe).writes[..1] == [PutReceipt(r)];
      One(s, PutReceipt(r));
      TerminalConsistent(a, s);
    }
  }

  lemma StoredOpen(a: Attempt, s: Durable, probe: ProbeResult)
    requires Open(a, s)
    ensures var stored := Apply(s, PutResult(probe));
            Open(a, stored) && Head(stored) == Head(s) && probe in stored.results
  {
    ResultConsistent(a, s, probe);
  }

  lemma ProbingConsistent(a: Attempt, s: Durable, probe: ProbeResult, k: nat)
    requires Open(a, s) && Passing(Head(s).operations) == []
    requires k <= |After(PutResult(probe), WithProbe(a, Head(s), probe)).writes|
    ensures Consistent(a, ApplyAll(s, After(PutResult(probe), WithProbe(a, Head(s), probe)).writes[..k]))
  {
    if k > 0 {
      StoredOpen(a, s, probe);
      AfterPrefix(s, PutResult(probe), WithProbe(a, Head(s), probe), k);
      WithProbeConsistent(a, Apply(s, PutResult(probe)), probe, k - 1);
    }
  }

  /** Of the store, a plan from a running receipt reads the commit and the results only. */
  lemma ReadsAlike(a: Attempt, s: Durable, t: Durable, current: Receipt, probe: ProbeResult)
    requires s.commit == t.commit && s.results == t.results
    ensures FromRunning(a, s, current, probe) == FromRunning(a, t, current, probe)
  {
  }

  lemma FromPreparedConsistent(a: Attempt, s: Durable, read: Durable, probe: ProbeResult, k: nat)
    requires Consistent(a, s) && |s.chain| == 1 && read.commit == s.commit && read.results == s.results
    requires k <= |FromPrepared(a, read, Head(s), probe).writes|
    ensures Consistent(a, ApplyAll(s, FromPrepared(a, read, Head(s), probe).writes[..k]))
  {
    var r := RunningSuccessor(Head(s), [], Head(s).disposition);
    FirstRunningConsistent(a, s);
    if k > 0 {
      var next := Apply(s, PutReceipt(r));
      AfterPrefix(s, PutReceipt(r), FromRunning(a, read, r, probe), k);
      ReadsAlike(a, read, next, r, probe);
      FromRunningConsistent(a, next, probe, k - 1);
    }
  }

  lemma FromNothingConsistent(a: Attempt, s: Durable, probe: ProbeResult, k: nat)
    requires Consistent(a, s) && s.chain == [] && k <= |PlanOf(a, s, probe).writes|
    ensures Consistent(a, ApplyAll(s, PlanOf(a, s, probe).writes[..k]))
  {
    var r := PreparedReceipt(a);
    StartsConsistent(a, s);
    if k > 0 {
      AfterPrefix(s, PutReceipt(r), FromPrepared(a, s, r, probe), k);
      FromPreparedConsistent(a, Apply(s, PutReceipt(r)), s, probe, k - 1);
    }
  }

  /** Crash safety of one invocation: whatever prefix of its writes survives, the durable state is
      consistent. */
  lemma InvokeConsistent(a: Attempt, s: Durable, probe: ProbeResult, survived: nat)
    requires Consistent(a, s)
    ensures Consistent(a, Invoke(a, s, probe, survived))
  {
    var p := PlanOf(a, s, probe);
    var k := if survived < |p.writes| then survived else |p.writes|;
    assert p.writes[..|p.writes|] == p.writes;
    if s.chain == [] {
      FromNothingConsistent(a, s, probe, k);
    } else if Head(s).phase.Prepared? {
      FromPreparedConsistent(a, s, s, probe, k);
    } else if Head(s).phase.Running? {
      FromRunningConsistent(a, s, probe, k);
    }
  }

  /** Safety over whole runs: any invocations, probe answers and crashes. */
  lemma {:induction false} HistoryConsistent(a: Attempt, s: Durable, calls: seq<Invocation>)
    requires Consistent(a, s)
    ensures Consistent(a, History(a, s, calls))
    decreases |calls|
  {
    if calls != [] {
      InvokeConsistent(a, s, calls[0].probe, calls[0].survived);
      HistoryConsistent(a, Invoke(a, s, calls[0].probe, calls[0].survived), calls[1..]);
    }
  }

  // ---- what consistency means to a reader of the store --------------------------------------------

  /** Prepared first, terminal last if at all, each receipt linked to the one before. */
  ghost predicate ChainShape(chain: seq<Receipt>) {
    forall i | 0 <= i < |chain| ::
      && (chain[i].phase.Prepared? <==> i == 0)
      && (chain[i].phase.Terminal? ==> i == |chain| - 1)
      && (i > 0 ==> chain[i].predecessor == Some(chain[i - 1]))
  }

  /** A commit names the last running receipt, the predecessor of a terminal one, and a passing result of
      the attempt's own probe. */
  ghost predicate CommitShape(a: Attempt, s: Durable) {
    && (s.commit.Some? ==>
          && |s.chain| >= 2
          && s.commit.value.running == LastRunning(s.chain)
          && CommitMatches(a, s.commit.value))
    && (s.chain != [] && Head(s).phase.Terminal? ==>
          s.commit.Some? && Head(s).predecessor == Some(s.commit.value.running))
  }

  lemma ConsistentShape(a: Attempt, s: Durable)
    requires Consistent(a, s)
    ensures ChainShape(s.chain) && CommitShape(a, s)
  {
  }

  lemma ConsistentReferences(a: Attempt, s: Durable, i: nat)
    requires Consistent(a, s) && i < |s.chain|
    ensures |Passing(s.chain[i].operations)| <= 1
  {
    if |s.chain| >= 2 {
      OperationsGrow(a, s.chain, i);
      AtMostOnePasses(a, s);
      PassingPrefix(s.chain[i].operations, Head(s).operations);
    }
  }

  /** The shape of the chain, the commit and the cited results in every reachable state. */
  lemma ReachableShape(a: Attempt, calls: seq<Invocation>)
    ensures var s := History(a, EMPTY, calls);
            && ChainShape(s.chain) && CommitShape(a, s)
            && forall i | 0 <= i < |s.chain| :: |Passing(s.chain[i].operations)| <= 1
  {
    var s := History(a, EMPTY, calls);
    HistoryConsistent(a, EMPTY, calls);
    ConsistentShape(a, s);
    forall i | 0 <= i < |s.chain|
      ensures |Passing(s.chain[i].operations)| <= 1
    {
      ConsistentReferences(a, s, i);
    }
  }

  lemma {:induction false} OperationsGrow(a: Attempt, chain: seq<Receipt>, i: nat)
    requires Linked(a, chain) && i < |chain|
    ensures chain[i].operations <= chain[|chain| - 1].operations
    decreases |chain| - i
  {
    if i < |chain| - 1 {
      OperationsGrow(a, chain, i + 1);
    }
  }

  lemma {:induction false} PassingPrefix(ops: seq<ProbeResult>, more: seq<ProbeResult>)
    requires ops <= more
    ensures |Passing(ops)| <= |Passing(more)|
  {
    if ops != [] {
      PassingPrefix(ops[1..], more[1..]);
    }
  }

  lemma AtMostOnePasses(a: Attempt, s: Durable)
    requires Consistent(a, s) && |s.chain| >= 2
    ensures |Passing(Head(s).operations)| <= 1
  {
    PassingOf(Head(s).operations);
  }

  /** What an invocation that goes on from a running receipt can end with. */
  lemma RunningOutcome(a: Attempt, s: Durable, probe: ProbeResult)
    requires Consistent(a, s) && |s.chain| >= 2 && Head(s).phase.Running?
    ensures var outcome := FromRunning(a, s, Head(s), probe).outcome;
            && (outcome.Refused? ==> outcome.why == ProbeIdentityChanged || outcome.why == Halted)
            && (probe.ok && probe.identity == a.identity ==>
                  outcome.Settled? || (outcome == Refused(Halted) && Head(s).disposition.HaltOnUncertainty?))
  {
    PassingOf(Head(s).operations);
  }

  lemma PreparedOutcome(a: Attempt, s: Durable, probe: ProbeResult)
    requires s.commit.None?
    ensures var outcome := FromPrepared(a, s, PreparedReceipt(a), probe).outcome;
            && (outcome.Refused? ==> outcome.why == ProbeIdentityChanged)
            && (probe.ok && probe.identity == a.identity ==> outcome.Settled?)
  {
  }

  /** In a consistent state the only refusals are a changed probe identity and a halted attempt:
      every other error branch is dead. */
  lemma OnlyIdentityRefusals(a: Attempt, s: Durable, probe: ProbeResult)
    requires Consistent(a, s)
    ensures var outcome := PlanOf(a, s, probe).outcome;
            outcome.Refused? ==> outcome.why == ProbeIdentityChanged || outcome.why == Halted
  {
    if |s.chain| <= 1 {
      PreparedOutcome(a, s, probe);
    } else if Head(s).phase.Terminal? {
      TerminalIsProven(a, s);
    } else {
      RunningOutcome(a, s, probe);
    }
  }

  /** The independent verification of a terminal receipt never fails. */
  lemma TerminalIsProven(a: Attempt, s: Durable)
    requires Consistent(a, s) && s.chain != [] && Head(s).phase.Terminal?
    ensures CommittedTerminalProven(a, s)
  {
    assert s.chain[|s.chain| - 2] in s.chain;
  }

  /** Idempotent replay: a settled attempt returns its receipt for ever and writes nothing. */
  lemma SettledForEver(a: Attempt, s: Durable, probe: ProbeResult)
    requires Consistent(a, s) && s.chain != [] && Head(s).phase.Terminal?
    ensures PlanOf(a, s, probe) == Plan([], Settled(Head(s)), false)
  {
    TerminalIsProven(a, s);
  }

  lemma {:induction false} SettledThroughHistory(a: Attempt, s: Durable, calls: seq<Invocation>)
    requires Consistent(a, s) && s.chain != [] && Head(s).phase.Terminal?
    ensures History(a, s, calls) == s
    decreases |calls|
  {
    if calls != [] {
      SettledForEver(a, s, calls[0].probe);
      SettledThroughHistory(a, s, calls[1..]);
    }
  }

  /** After a crash with the commit durable, the next completed invocation settles it without probing. */
  lemma CommittedNeedsNoProbe(a: Attempt, s: Durable, probe: ProbeResult)
    requires Consistent(a, s) && s.commit.Some?
    ensures var p := PlanOf(a, s, probe);
            && !p.probed && p.outcome.Settled?
            && p.outcome.receipt.settlement
               == Some(Settlement(s.commit.value.after.environment, [s.commit.value.after], s.commit.value))
            && (forall w | w in p.writes :: w.PutReceipt?)
  {
    if Head(s).phase.Terminal? {
      TerminalIsProven(a, s);
    }
  }

  /** Once a changed probe identity has been recorded, nothing is ever written again. */
  lemma {:induction false} HaltedForEver(a: Attempt, s: Durable, calls: seq<Invocation>)
    requires Consistent(a, s) && s.chain != [] && Head(s).disposition.HaltOnUncertainty?
    ensures History(a, s, calls) == s && s.commit.None?
    decreases |calls|
  {
    if calls != [] {
      assert PlanOf(a, s, calls[0].probe) == Refuse(Halted);
      HaltedForEver(a, s, calls[1..]);
    }
  }

  /** An invocation that completes with a passing probe of the right identity settles. */
  lemma PassingProbeSettles(a: Attempt, s: Durable, probe: ProbeResult)
    requires Consistent(a, s) && probe.ok && probe.identity == a.identity
    ensures var p := PlanOf(a, s, probe);
            p.outcome.Settled? || (p.outcome == Refused(Halted) && Head(s).disposition.HaltOnUncertainty?)
  {
    if |s.chain| <= 1 {
      PreparedOutcome(a, s, probe);
    } else if Head(s).phase.Terminal? {
      TerminalIsProven(a, s);
    } else {
      RunningOutcome(a, s, probe);
    }
  }

  // ---- what a complete invocation answers ---------------------------------------------------------------

  ghost predicate IsHalted(s: Durable) {
    s.chain != [] && Head(s).disposition.HaltOnUncertainty?
  }

  /** Some receipt cites a passing result. */
  ghost predicate HasPassed(s: Durable) {
    exists i, e | 0 <= i < |s.chain| && e in s.chain[i].operations :: e.ok
  }

  /** Probing is for an attempt that is neither halted nor committed and has no passing result yet.  Of a probe, a
      changed identity is refused, a failure of the attempt's own probe leaves it failing, and success settles; without
      a probe the attempt is settled unless it is halted. */
  ghost predicate AnswersProbe(a: Attempt, s: Durable, probe: ProbeResult, outcome: Outcome, probed: bool) {
    && (probed <==> !IsHalted(s) && s.commit.None? && !HasPassed(s))
    && (outcome == Refused(ProbeIdentityChanged) <==> probed && probe.identity != a.identity)
    && (outcome.StillFailing? <==> probed && probe.identity == a.identity && !probe.ok)
    && (outcome.Settled? <==> !IsHalted(s) && (probed ==> probe.identity == a.identity && probe.ok))
    && (outcome == Refused(Halted) <==> IsHalted(s))
  }

  lemma HeadHasPassed(a: Attempt, s: Durable)
    requires Consistent(a, s) && |s.chain| >= 2
    ensures HasPassed(s) <==> exists e | e in Head(s).operations :: e.ok
  {
    if HasPassed(s) {
      var i, e :| 0 <= i < |s.chain| && e in s.chain[i].operations && e.ok;
      OperationsGrow(a, s.chain, i);
      var k :| 0 <= k < |s.chain[i].operations| && s.chain[i].operations[k] == e;
      assert Head(s).operations[k] == e;
    } else {
      assert Head(s) == s.chain[|s.chain| - 1];
    }
  }

  lemma RunningAnswers(a: Attempt, s: Durable, probe: ProbeResult)
    requires Consistent(a, s) && |s.chain| >= 2 && Head(s).phase.Running?
    ensures var p := FromRunning(a, s, Head(s), probe); AnswersProbe(a, s, probe, p.outcome, p.probed)
  {
    HeadHasPassed(a, s);
    PassingOf(Head(s).operations);
  }

  /** A probe for a prepared receipt that cites nothing yet. */
  lemma FirstProbeAnswers(a: Attempt, s: Durable, current: Receipt, probe: ProbeResult)
    requires s.commit.None? && current.operations == [] && current.disposition.RepeatableReadOnly?
    ensures var p := FromPrepared(a, s, current, probe);
            && p.probed && p.outcome != Refused(Halted)
            && (p.outcome == Refused(ProbeIdentityChanged) <==> probe.identity != a.identity)
            && (p.outcome.StillFailing? <==> probe.identity == a.identity && !probe.ok)
            && (p.outcome.Settled? <==> probe.identity == a.identity && probe.ok)
  {
    var running := RunningSuccessor(current, [], current.disposition);
    assert running.operations == [];
    assert FromRunning(a, s, running, probe) == After(PutResult(probe), WithProbe(a, running, probe));
  }

  lemma EarlyAnswers(a: Attempt, s: Durable, probe: ProbeResult)
    requires Consistent(a, s) && |s.chain| <= 1
    ensures var p := PlanOf(a, s, probe); AnswersProbe(a, s, probe, p.outcome, p.probed)
  {
    FirstProbeAnswers(a, s, if s.chain == [] then PreparedReceipt(a) else Head(s), probe);
  }

  /** In every consistent state a complete invocation answers what its probe says, and nothing else. */
  lemma OutcomeExactly(a: Attempt, s: Durable, probe: ProbeResult)
    requires Consistent(a, s)
    ensures var p := PlanOf(a, s, probe); AnswersProbe(a, s, probe, p.outcome, p.probed)
  {
    if |s.chain| <= 1 {
      EarlyAnswers(a, s, probe);
    } else if Head(s).phase.Terminal? {
      TerminalIsProven(a, s);
    } else {
      RunningAnswers(a, s, probe);
    }
  }

  predicate CitedOnce(e: ProbeResult, ops: seq<ProbeResult>) {
    && (exists i | 0 <= i < |ops| :: ops[i] == e)
    && (forall i, j | 0 <= i < j < |ops| :: ops[i] == e ==> ops[j] != e)
  }

  /** The state a failing probe leaves. */
  lemma LeftFailingCites(a: Attempt, t: Durable, probe: ProbeResult, receipt: Receipt)
    requires Consistent(a, t) && LeftFailing(t, probe, receipt)
    ensures CitedOnce(probe, receipt.operations) && probe in t.results
  {
    var k :| 0 <= k < |receipt.operations| && receipt.operations[k] == probe;
  }

  lemma LeftFailingSettles(a: Attempt, t: Durable, probe: ProbeResult, receipt: Receipt, right: ProbeResult)
    requires Consistent(a, t) && LeftFailing(t, probe, receipt) && right.ok && right.identity == a.identity
    ensures PlanOf(a, t, right).outcome.Settled?
  {
    OutcomeExactly(a, t, right);
  }

  /** After an invocation that leaves the attempt failing: the receipt it returned is the durable head and cites the
      probe once, nothing is committed or halted, and any later complete invocation with a passing probe settles. */
  lemma StillFailingLeaves(a: Attempt, s: Durable, probe: ProbeResult, right: ProbeResult)
    requires Consistent(a, s) && PlanOf(a, s, probe).outcome.StillFailing?
    requires right.ok && right.identity == a.identity
    ensures var p := PlanOf(a, s, probe);
            var t := ApplyAll(s, p.writes);
            && LeftFailing(t, probe, p.outcome.receipt)
            && CitedOnce(probe, Head(t).operations) && probe in t.results
            && PlanOf(a, t, right).outcome.Settled?
  {
    var p := PlanOf(a, s, probe);
    var t := ApplyAll(s, p.writes);
    InvokeConsistent(a, s, probe, |p.writes|);
    FailingWrites(a, s, probe);
    LeftFailingCites(a, t, probe, p.outcome.receipt);
    LeftFailingSettles(a, t, probe, p.outcome.receipt, right);
  }

  lemma ApplyAfter(s: Durable, w: Write, rest: Plan)
    ensures ApplyAll(s, After(w, rest).writes) == ApplyAll(Apply(s, w), rest.writes)
  {
    assert ([w] + rest.writes)[1..] == rest.writes;
  }

  ghost predicate LeftFailing(t: Durable, probe: ProbeResult, receipt: Receipt) {
    && t.chain != [] && Head(t) == receipt && receipt.phase.Running? && probe in receipt.operations
    && t.commit.None? && !IsHalted(t)
  }

  lemma ProbedPlan(a: Attempt, s: Durable, current: Receipt, probe: ProbeResult)
    requires FromRunning(a, s, current, probe).probed
    ensures FromRunning(a, s, current, probe) == After(PutResult(probe), WithProbe(a, current, probe))
  {
  }

  lemma FailingWithProbe(a: Attempt, s: Durable, current: Receipt, probe: ProbeResult)
    requires s.chain != [] && Head(s) == current && s.commit.None?
    requires current.phase.Running? && current.disposition.RepeatableReadOnly?
    requires WithProbe(a, current, probe).outcome.StillFailing?
    ensures var p := WithProbe(a, current, probe); LeftFailing(ApplyAll(s, p.writes), probe, p.outcome.receipt)
  {
    if probe !in current.operations {
      var cited := RunningSuccessor(current, [probe], current.disposition);
      ApplyAfter(s, PutReceipt(cited), Conclude(cited, probe, true));
      assert probe in current.operations + [probe];
    }
  }

  /** From a running head `read` was taken with. */
  lemma FailingFromRunning(a: Attempt, s: Durable, read: Durable, current: Receipt, probe: ProbeResult)
    requires s.chain != [] && Head(s) == current && s.commit.None? && read.commit.None?
    requires current.phase.Running? && current.disposition.RepeatableReadOnly?
    requires FromRunning(a, read, current, probe).outcome.StillFailing? && FromRunning(a, read, current, probe).probed
    ensures var p := FromRunning(a, read, current, probe); LeftFailing(ApplyAll(s, p.writes), probe, p.outcome.receipt)
  {
    ProbedPlan(a, read, current, probe);
    ApplyAfter(s, PutResult(probe), WithProbe(a, current, probe));
    FailingWithProbe(a, Apply(s, PutResult(probe)), current, probe);
  }

  lemma FailingFromPrepared(a: Attempt, s: Durable, read: Durable, current: Receipt, probe: ProbeResult)
    requires s.chain != [] && Head(s) == current && s.commit.None? && read.commit.None?
    requires current.disposition.RepeatableReadOnly?
    requires FromPrepared(a, read, current, probe).outcome.StillFailing? && FromPrepared(a, read, current, probe).probed
    ensures var p := FromPrepared(a, read, current, probe); LeftFailing(ApplyAll(s, p.writes), probe, p.outcome.receipt)
  {
    var running := RunningSuccessor(current, [], current.disposition);
    ApplyAfter(s, PutReceipt(running), FromRunning(a, read, running, probe));
    FailingFromRunning(a, Apply(s, PutReceipt(running)), read, running, probe);
  }

  /** What a failing probe writes: the receipts still missing, the result, and a receipt that cites it if none does. */
  lemma FailingWrites(a: Attempt, s: Durable, probe: ProbeResult)
    requires Consistent(a, s) && PlanOf(a, s, probe).outcome.StillFailing?
    ensures var p := PlanOf(a, s, probe);
            LeftFailing(ApplyAll(s, p.writes), probe, p.outcome.receipt)
  {
    OutcomeExactly(a, s, probe);
    if s.chain == [] {
      var prepared := PreparedReceipt(a);
      ApplyAfter(s, PutReceipt(prepared), FromPrepared(a, s, prepared, probe));
      FailingFromPrepared(a, Apply(s, PutReceipt(prepared)), s, prepared, probe);
    } else if |s.chain| == 1 {
      FailingFromPrepared(a, s, s, Head(s), probe);
    } else {
      FailingFromRunning(a, s, s, Head(s), probe);
    }
  }

  // ---- whatever the store holds --------------------------------------------------------------------------

  lemma {:induction false} PassingMeans(ops: seq<ProbeResult>)
    ensures forall e :: e in Passing(ops) <==> e in ops && e.ok
    ensures |Passing(ops)| > 0 <==> exists e | e in ops :: e.ok
  {
    if ops != [] {
      PassingMeans(ops[1..]);
      assert ops == [ops[0]] + ops[1..];
    }
    assert Passing(ops) != [] ==> Passing(ops)[0] in Passing(ops);
  }

  /** The receipt lets the attempt be probed: it is not halted, and cites only stored, failing results of the attempt's
      own probe. */
  ghost predicate OpenTo(a: Attempt, s: Durable, current: Receipt) {
    && current.disposition.RepeatableReadOnly?
    && forall e | e in current.operations :: e in s.results && e.identity == a.identity && !e.ok
  }

  lemma WithProbeProbes(a: Attempt, current: Receipt, probe: ProbeResult)
    ensures After(PutResult(probe), WithProbe(a, current, probe)).probed
  {
  }

  lemma RunningProbesIff(a: Attempt, s: Durable, current: Receipt, probe: ProbeResult)
    ensures FromRunning(a, s, current, probe).probed <==> s.commit.None? && OpenTo(a, s, current)
  {
    PassingMeans(current.operations);
    WithProbeProbes(a, current, probe);
  }

  lemma PreparedProbesIff(a: Attempt, s: Durable, current: Receipt, probe: ProbeResult)
    ensures FromPrepared(a, s, current, probe).probed <==> s.commit.None? && OpenTo(a, s, current)
  {
    var running := RunningSuccessor(current, [], current.disposition);
    assert running.operations == current.operations;
    RunningProbesIff(a, s, running, probe);
  }

  /** When an invocation probes, in any store: nothing committed, and either no receipt yet or an open one of the
      attempt that cites only stored, failing results of the attempt's own probe. */
  lemma ProbesIff(a: Attempt, s: Durable, probe: ProbeResult)
    ensures PlanOf(a, s, probe).probed
            <==> && s.commit.None?
                 && (s.chain != [] ==>
                       Head(s).attempt == a.id && !Head(s).phase.Terminal? && OpenTo(a, s, Head(s)))
  {
    if s.chain == [] {
      PreparedProbesIff(a, s, PreparedReceipt(a), probe);
    } else {
      PreparedProbesIff(a, s, Head(s), probe);
      RunningProbesIff(a, s, Head(s), probe);
    }
  }

  /** What makes a settled receipt believable: it closes a durable commit of a running receipt of the attempt, which
      cites a stored passing result of the attempt's own probe. */
  ghost predicate ProvenBy(a: Attempt, t: Durable, receipt: Receipt, c: Commit) {
    && t.commit == Some(c) && t.chain != [] && Head(t) == receipt
    && receipt.phase.Terminal? && receipt.predecessor == Some(c.running) && c.after in receipt.operations
    && receipt.settlement == Some(Settlement(c.after.environment, [c.after], c))
    && c.running in t.chain && c.running.phase.Running? && c.running.attempt == a.id
    && c.running.revision == c.revision
    && c.after in c.running.operations && c.after in t.results && c.after.ok && c.after.identity == a.identity
  }

  ghost predicate ProvesWhatItSettles(a: Attempt, s: Durable, p: Plan) {
    p.outcome.Settled? ==>
      var t := ApplyAll(s, p.writes);
      t.commit.Some? && ProvenBy(a, t, p.outcome.receipt, t.commit.value)
  }

  lemma ConcludeProves(a: Attempt, s: Durable, running: Receipt, after: ProbeResult, probed: bool)
    requires s.chain != [] && Head(s) == running && running.phase.Running? && running.attempt == a.id
    requires after in running.operations && after in s.results && after.identity == a.identity
    ensures ProvesWhatItSettles(a, s, Conclude(running, after, probed))
  {
    var c := Commit(running, running.revision, after);
    Two(s, PutCommit(c), PutReceipt(TerminalSuccessor(running, c)), 2);
    assert [PutCommit(c), PutReceipt(TerminalSuccessor(running, c))][..2]
           == [PutCommit(c), PutReceipt(TerminalSuccessor(running, c))];
    assert running == s.chain[|s.chain| - 1];
  }

  lemma WithProbeProves(a: Attempt, s: Durable, current: Receipt, probe: ProbeResult)
    requires s.chain != [] && Head(s) == current && current.phase.Running? && current.attempt == a.id
    requires probe in s.results
    ensures ProvesWhatItSettles(a, s, WithProbe(a, current, probe))
  {
    if probe.identity == a.identity {
      if probe in current.operations {
        ConcludeProves(a, s, current, probe, true);
      } else {
        var cited := RunningSuccessor(current, [probe], current.disposition);
        ApplyAfter(s, PutReceipt(cited), Conclude(cited, probe, true));
        ConcludeProves(a, Apply(s, PutReceipt(cited)), cited, probe, true);
      }
    }
  }

  lemma FromRunningProves(a: Attempt, s: Durable, read: Durable, current: Receipt, probe: ProbeResult)
    requires s.chain != [] && Head(s) == current && current.phase.Running? && current.attempt == a.id
    requires read.commit == s.commit && read.results == s.results
    ensures ProvesWhatItSettles(a, s, FromRunning(a, read, current, probe))
  {
    PassingMeans(current.operations);
    if s.commit.Some? {
      One(s, PutReceipt(TerminalSuccessor(current, s.commit.value)));
      assert current == s.chain[|s.chain| - 1];
    } else if |Passing(current.operations)| == 1 {
      var passing := Passing(current.operations)[0];
      assert passing in Passing(current.operations);
      if passing in s.results && passing.identity == a.identity { ConcludeProves(a, s, current, passing, false); }
    } else if FromRunning(a, read, current, probe).probed {
      ProbedPlan(a, read, current, probe);
      ApplyAfter(s, PutResult(probe), WithProbe(a, current, probe));
      WithProbeProves(a, Apply(s, PutResult(probe)), current, probe);
    }
  }

  lemma FromPreparedProves(a: Attempt, s: Durable, read: Durable, current: Receipt, probe: ProbeResult)
    requires s.chain != [] && Head(s) == current && current.attempt == a.id
    requires read.commit == s.commit && read.results == s.results
    ensures ProvesWhatItSettles(a, s, FromPrepared(a, read, current, probe))
  {
    var running := RunningSuccessor(current, [], current.disposition);
    ApplyAfter(s, PutReceipt(running), FromRunning(a, read, running, probe));
    FromRunningProves(a, Apply(s, PutReceipt(running)), read, running, probe);
  }

  /** Fail closed: whatever the store holds, consistent or not, an invocation settles only what it proves. */
  lemma SettledIsProven(a: Attempt, s: Durable, probe: ProbeResult)
    ensures ProvesWhatItSettles(a, s, PlanOf(a, s, probe))
  {
    if s.chain == [] {
      var prepared := PreparedReceipt(a);
      ApplyAfter(s, PutReceipt(prepared), FromPrepared(a, s, prepared, probe));
      FromPreparedProves(a, Apply(s, PutReceipt(prepared)), s, prepared, probe);
    } else if Head(s).attempt == a.id {
      if Head(s).phase.Prepared? { FromPreparedProves(a, s, s, Head(s), probe); }
      if Head(s).phase.Running? { FromRunningProves(a, s, s, Head(s), probe); }
    }
  }

  // ---- a changed identity and the crash before its halting receipt --------------------------------------

  lemma {:induction false} ApplyAllSplits(s: Durable, front: seq<Write>, back: seq<Write>)
    ensures ApplyAll(s, front + back) == ApplyAll(ApplyAll(s, front), back)
    decreases |front|
  {
    if front == [] {
      assert front + back == back;
    } else {
      assert (front + back)[1..] == front[1..] + back;
      ApplyAllSplits(Apply(s, front[0]), front[1..], back);
    }
  }

  lemma LastReceiptIsHead(s: Durable, ws: seq<Write>, r: Receipt)
    requires ws != [] && ws[|ws| - 1] == PutReceipt(r)
    ensures var t := ApplyAll(s, ws);
            t.chain != [] && Head(t) == r
  {
    var front := ws[..|ws| - 1];
    assert ws == front + [PutReceipt(r)];
    ApplyAllSplits(s, front, [PutReceipt(r)]);
    One(ApplyAll(s, front), PutReceipt(r));
  }

  lemma {:induction false} UnhaltedWrites(s: Durable, ws: seq<Write>)
    requires !IsHalted(s)
    requires forall w | w in ws :: LeavesOpen(w)
    ensures !IsHalted(ApplyAll(s, ws))
    decreases |ws|
  {
    if ws != [] {
      assert ws[0] in ws;
      UnhaltedWrites(Apply(s, ws[0]), ws[1..]);
    }
  }

  /** A plan that settles ends with the terminal receipt it returns. */
  ghost predicate EndsTerminal(p: Plan) {
    p.outcome.Settled? ==>
      && p.writes != [] && p.writes[|p.writes| - 1] == PutReceipt(p.outcome.receipt)
      && p.outcome.receipt.phase.Terminal?
  }

  lemma AfterEndsTerminal(w: Write, p: Plan)
    requires EndsTerminal(p)
    ensures EndsTerminal(After(w, p))
  {
    if p.writes != [] { assert ([w] + p.writes)[|p.writes|] == p.writes[|p.writes| - 1]; }
  }

  lemma FromRunningEndsTerminal(a: Attempt, s: Durable, current: Receipt, probe: ProbeResult)
    ensures EndsTerminal(FromRunning(a, s, current, probe))
  {
    var cited := RunningSuccessor(current, [probe], current.disposition);
    AfterEndsTerminal(PutReceipt(cited), Conclude(cited, probe, true));
    AfterEndsTerminal(PutResult(probe), WithProbe(a, current, probe));
  }

  lemma EarlyPlanEndsTerminal(a: Attempt, s: Durable, probe: ProbeResult)
    requires Consistent(a, s) && |s.chain| <= 1
    ensures EndsTerminal(PlanOf(a, s, probe))
  {
    var prepared := PreparedReceipt(a);
    var running := RunningSuccessor(prepared, [], RepeatableReadOnly);
    FromRunningEndsTerminal(a, s, running, probe);
    AfterEndsTerminal(PutReceipt(running), FromRunning(a, s, running, probe));
    AfterEndsTerminal(PutReceipt(prepared), FromPrepared(a, s, prepared, probe));
  }

  lemma OpenPlanEndsTerminal(a: Attempt, s: Durable, probe: ProbeResult)
    requires Consistent(a, s) && |s.chain| >= 2 && !Head(s).phase.Terminal?
    ensures EndsTerminal(PlanOf(a, s, probe))
  {
    FromRunningEndsTerminal(a, s, Head(s), probe);
  }

  lemma SettlingEnds(a: Attempt, s: Durable, probe: ProbeResult)
    requires Consistent(a, s) && PlanOf(a, s, probe).outcome.Settled?
    ensures var t := ApplyAll(s, PlanOf(a, s, probe).writes);
            t.chain != [] && Head(t).phase.Terminal?
  {
    var p := PlanOf(a, s, probe);
    if s.chain == [] || !Head(s).phase.Terminal? {
      if |s.chain| <= 1 { EarlyPlanEndsTerminal(a, s, probe); } else { OpenPlanEndsTerminal(a, s, probe); }
      LastReceiptIsHead(s, p.writes, p.outcome.receipt);
    }
  }

  /** An invocation that settles leaves a committed, terminal attempt. */
  lemma SettlingCommits(a: Attempt, s: Durable, probe: ProbeResult)
    requires Consistent(a, s) && PlanOf(a, s, probe).outcome.Settled?
    ensures var t := ApplyAll(s, PlanOf(a, s, probe).writes);
            t.commit.Some? && t.chain != [] && Head(t).phase.Terminal?
  {
    var p := PlanOf(a, s, probe);
    SettlingEnds(a, s, probe);
    InvokeConsistent(a, s, probe, |p.writes|);
    ConsistentShape(a, ApplyAll(s, p.writes));
  }

  /** A complete invocation. */
  function Whole(a: Attempt, s: Durable, probe: ProbeResult): Invocation {
    Invocation(probe, |PlanOf(a, s, probe).writes|)
  }

  predicate LeavesOpen(w: Write) {
    !w.PutCommit? && (w.PutReceipt? ==> !w.receipt.disposition.HaltOnUncertainty?)
  }

  /** `n` writes of which only the last halts. */
  ghost predicate HaltsLast(ws: seq<Write>, n: nat) {
    && |ws| == n > 0
    && ws[n - 1].PutReceipt? && ws[n - 1].receipt.disposition.HaltOnUncertainty?
    && forall i | 0 <= i < n - 1 :: LeavesOpen(ws[i])
  }

  lemma AfterHaltsLast(w: Write, p: Plan, n: nat)
    requires HaltsLast(p.writes, n) && LeavesOpen(w)
    ensures HaltsLast(After(w, p).writes, n + 1)
  {
    forall i | 0 <= i < n
      ensures LeavesOpen(([w] + p.writes)[i])
    {
      if i > 0 { assert ([w] + p.writes)[i] == p.writes[i - 1]; }
    }
  }

  lemma ForeignProbeFromRunning(a: Attempt, s: Durable, current: Receipt, wrong: ProbeResult)
    requires wrong.identity != a.identity && FromRunning(a, s, current, wrong).probed
    requires current.disposition.RepeatableReadOnly? && s.commit.None?
    requires forall i | 0 <= i < |current.operations| - 1 :: !current.operations[i].ok
    ensures HaltsLast(FromRunning(a, s, current, wrong).writes, 2)
  {
    PassingOf(current.operations);
    AfterHaltsLast(PutResult(wrong), WithProbe(a, current, wrong), 1);
  }

  /** What an invocation that sees a foreign probe writes: all but the last write leave the attempt open. */
  lemma ChangedIdentityPlan(a: Attempt, s: Durable, wrong: ProbeResult)
    requires Consistent(a, s) && wrong.identity != a.identity && PlanOf(a, s, wrong).probed
    ensures HaltsLast(PlanOf(a, s, wrong).writes, if |s.chain| == 0 then 4 else if |s.chain| == 1 then 3 else 2)
    ensures !IsHalted(s) && s.commit.None?
  {
    if |s.chain| <= 1 {
      var running := RunningSuccessor(PreparedReceipt(a), [], RepeatableReadOnly);
      ForeignProbeFromRunning(a, s, running, wrong);
      AfterHaltsLast(PutReceipt(running), FromRunning(a, s, running, wrong), 2);
      AfterHaltsLast(PutReceipt(PreparedReceipt(a)), FromPrepared(a, s, PreparedReceipt(a), wrong), 3);
    } else {
      RunningHeadIsOpen(a, s, wrong);
      ForeignProbeFromRunning(a, s, Head(s), wrong);
    }
  }

  lemma RunningHeadIsOpen(a: Attempt, s: Durable, probe: ProbeResult)
    requires Consistent(a, s) && |s.chain| >= 2 && PlanOf(a, s, probe).probed
    ensures Head(s).phase.Running? && Head(s).disposition.RepeatableReadOnly? && s.commit.None?
    ensures PlanOf(a, s, probe) == FromRunning(a, s, Head(s), probe)
    ensures forall i | 0 <= i < |Head(s).operations| - 1 :: !Head(s).operations[i].ok
  {
  }

  /** An open attempt can still be committed by one complete invocation with a passing probe. */
  lemma OpenAttemptCommits(a: Attempt, s: Durable, right: ProbeResult)
    requires Consistent(a, s) && !IsHalted(s) && right.ok && right.identity == a.identity
    ensures var t := History(a, s, [Whole(a, s, right)]);
            t.commit.Some? && t.chain != [] && Head(t).phase.Terminal?
  {
    PassingProbeSettles(a, s, right);
    SettlingCommits(a, s, right);
    var call := Whole(a, s, right);
    assert [call][1..] == [];
    assert History(a, s, [call]) == Invoke(a, s, right, call.survived);
  }

  lemma InterruptedHaltStaysOpen(a: Attempt, s: Durable, wrong: ProbeResult, survived: nat)
    requires Consistent(a, s) && wrong.identity != a.identity && PlanOf(a, s, wrong).probed
    requires survived < |PlanOf(a, s, wrong).writes|
    ensures !IsHalted(Invoke(a, s, wrong, survived)) && Consistent(a, Invoke(a, s, wrong, survived))
  {
    var ws := PlanOf(a, s, wrong).writes;
    ChangedIdentityPlan(a, s, wrong);
    InvokeConsistent(a, s, wrong, survived);
    forall w | w in ws[..survived]
      ensures LeavesOpen(w)
    {
      var i :| 0 <= i < survived && ws[i] == w;
    }
    UnhaltedWrites(s, ws[..survived]);
  }

  lemma CompleteHaltHalts(a: Attempt, s: Durable, wrong: ProbeResult, survived: nat)
    requires Consistent(a, s) && wrong.identity != a.identity && PlanOf(a, s, wrong).probed
    requires survived >= |PlanOf(a, s, wrong).writes|
    ensures IsHalted(Invoke(a, s, wrong, survived)) && Consistent(a, Invoke(a, s, wrong, survived))
  {
    var ws := PlanOf(a, s, wrong).writes;
    ChangedIdentityPlan(a, s, wrong);
    InvokeConsistent(a, s, wrong, survived);
    LastReceiptIsHead(s, ws, ws[|ws| - 1].receipt);
  }

  /** After an invocation has seen a foreign probe, no later history ever commits exactly when all its writes -
      the last one is the halting receipt - became durable. */
  lemma NeverCommitsIff(a: Attempt, s: Durable, wrong: ProbeResult, survived: nat)
    requires Consistent(a, s) && wrong.identity != a.identity && PlanOf(a, s, wrong).probed
    ensures (forall calls :: History(a, Invoke(a, s, wrong, survived), calls).commit.None?)
            <==> survived >= |PlanOf(a, s, wrong).writes|
  {
    var t := Invoke(a, s, wrong, survived);
    if survived >= |PlanOf(a, s, wrong).writes| {
      CompleteHaltHalts(a, s, wrong, survived);
      forall calls
        ensures History(a, t, calls).commit.None?
      {
        HaltedForEver(a, t, calls);
      }
    } else {
      InterruptedHaltStaysOpen(a, s, wrong, survived);
      var right := ProbeResult(a.identity, true, 0);
      OpenAttemptCommits(a, t, right);
      assert History(a, t, [Whole(a, t, right)]).commit.Some?;
    }
  }

  /** What is durable when the process dies between storing the foreign result and publishing the halting receipt. */
  lemma InterruptedState(a: Attempt, wrong: ProbeResult)
    requires wrong.identity != a.identity
    ensures var prepared := PreparedReceipt(a);
            var running := RunningSuccessor(prepared, [], RepeatableReadOnly);
            Invoke(a, EMPTY, wrong, 3) == Durable([prepared, running], None, {wrong})
  {
    var prepared := PreparedReceipt(a);
    var running := RunningSuccessor(prepared, [], RepeatableReadOnly);
    var ws := PlanOf(a, EMPTY, wrong).writes;
    var first, second, third := PutReceipt(prepared), PutReceipt(running), PutResult(wrong);
    assert ws == [first] + ([second] + ([third] + WithProbe(a, running, wrong).writes));
    assert ws[..3] == [first, second, third];
    assert [first, second, third][1..] == [second, third];
    assert [second, third][1..] == [third];
    var s1, s2 := Apply(EMPTY, first), Apply(Apply(EMPTY, first), second);
    assert ApplyAll(EMPTY, [first, second, third]) == ApplyAll(s2, [third]);
    One(s2, third);
    assert s1.chain == [prepared] && s2.chain == [prepared, running];
    assert EMPTY.results + {wrong} == {wrong};
  }

  /** Then the next complete invocation commits. */
  lemma CrashBeforeHaltCommits(a: Attempt, wrong: ProbeResult, right: ProbeResult)
    requires wrong.identity != a.identity && right.ok && right.identity == a.identity
    ensures var t := Invoke(a, EMPTY, wrong, 3);
            && wrong in t.results && t.commit.None?
            && var u := History(a, t, [Whole(a, t, right)]);
               u.commit.Some? && u.chain != [] && Head(u).phase.Terminal?
  {
    InterruptedState(a, wrong);
    InvokeConsistent(a, EMPTY, wrong, 3);
    OpenAttemptCommits(a, Invoke(a, EMPTY, wrong, 3), right);
  }
}
