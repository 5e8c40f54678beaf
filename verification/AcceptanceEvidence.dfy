/**
  The semantic capture of one judged moment: validated, stripped of prose and locators, and sorted, so
  that equal captures mean equal measured facts.

  Digests are taken to be injective: the digest of a render receipt is its payload.
 */
module AcceptanceEvidence {
  import opened Common

  datatype Metric = Metric(id: string, value: real, reference: real, relativeDelta: real, blocking: bool)

  datatype Contract = Contract(fact: ContractFact, error: string)

  datatype ContractFact = ContractFact(
    id: string, axis: string, metric: string, value: Option<real>, target: string, pass: bool, origin: string,
    source: string, authoritative: bool, ownerLayer: Option<string>)

  datatype RenderFacts = RenderFacts(
    engine: string, resolution: seq<int>, imageSettings: seq<string>, samples: Option<real>, color: seq<string>)

  /** A render receipt; the Workbench shading mode and the warnings are recorded for audit only. */
  datatype Receipt = Receipt(
    frame: int, mode: string, scale: real, resolution: seq<int>, state: RenderFacts, workbench: string,
    warnings: seq<string>, png: int)

  datatype RenderCapture = RenderCapture(receipt: Receipt, captureDigest: Receipt)

  datatype Decider = Critic | Metrics | NoOpticalSignal

  datatype Record = Record(
    frame: int, ref: string, render: string, capture: RenderCapture, mean: real, pass: bool, criticPass: bool,
    decidedBy: Decider, metricFailures: seq<string>, metrics: seq<Metric>, scores: map<string, real>,
    issues: seq<string>, contracts: seq<Contract>)

  /** The identity-bearing facts. */
  datatype Semantic = Semantic(
    momentId: string, frame: int, renderSha: int, referenceSha: int, mode: string, scale: real,
    resolution: seq<int>, state: RenderFacts, pass: bool, criticPass: bool, decidedBy: Decider, mean: real,
    metrics: seq<Metric>, scores: map<string, real>, contracts: seq<ContractFact>)

  // ---- string order ---------------------------------------------------------------------------

  /** Code-point order, as Python compares strings. */
  predicate AtMost(a: string, b: string) {
    a == [] || (b != [] && (a[0] < b[0] || (a[0] == b[0] && AtMost(a[1..], b[1..]))))
  }

  lemma {:induction false} AtMostTotal(a: string, b: string)
    ensures AtMost(a, b) || AtMost(b, a)
  {
    if a != [] && b != [] && a[0] == b[0] { AtMostTotal(a[1..], b[1..]); }
  }

  lemma {:induction false} AtMostAntisymmetric(a: string, b: string)
    requires AtMost(a, b) && AtMost(b, a)
    ensures a == b
  {
    if a != [] {
      AtMostAntisymmetric(a[1..], b[1..]);
      assert a == [a[0]] + a[1..] && b == [b[0]] + b[1..];
    }
  }

  lemma {:induction false} AtMostTransitive(a: string, b: string, c: string)
    requires AtMost(a, b) && AtMost(b, c)
    ensures AtMost(a, c)
  {
    if a != [] && a[0] == b[0] && b[0] == c[0] { AtMostTransitive(a[1..], b[1..], c[1..]); }
  }

  // ---- sorting by key ---------------------------------------------------------------------------

  function InsertBy<T>(x: T, xs: seq<T>, key: T -> string): seq<T> {
    if xs == [] || AtMost(key(x), key(xs[0])) then [x] + xs else [xs[0]] + InsertBy(x, xs[1..], key)
  }

  function SortBy<T>(xs: seq<T>, key: T -> string): seq<T> {
    if xs == [] then [] else InsertBy(xs[0], SortBy(xs[1..], key), key)
  }

  ghost predicate SortedBy<T>(xs: seq<T>, key: T -> string) {
    forall i, j | 0 <= i < j < |xs| :: AtMost(key(xs[i]), key(xs[j]))
  }

  predicate DistinctBy<T>(xs: seq<T>, key: T -> string) {
    forall i, j | 0 <= i < j < |xs| :: key(xs[i]) != key(xs[j])
  }

  lemma {:induction false} InsertByBag<T>(x: T, xs: seq<T>, key: T -> string)
    ensures multiset(InsertBy(x, xs, key)) == multiset(xs) + multiset{x}
  {
    if xs != [] && !AtMost(key(x), key(xs[0])) {
      InsertByBag(x, xs[1..], key);
      assert xs == [xs[0]] + xs[1..];
    }
  }

  lemma {:induction false} InsertByMember<T>(x: T, xs: seq<T>, key: T -> string, y: T)
    requires y in InsertBy(x, xs, key)
    ensures y == x || y in xs
  {
    if xs != [] && !AtMost(key(x), key(xs[0])) && y != xs[0] {
      InsertByMember(x, xs[1..], key, y);
    }
  }

  lemma SortedCons<T>(x: T, xs: seq<T>, key: T -> string)
    requires SortedBy(xs, key) && forall y | y in xs :: AtMost(key(x), key(y))
    ensures SortedBy([x] + xs, key)
  {
  }

  lemma {:induction false} InsertBySorts<T>(x: T, xs: seq<T>, key: T -> string)
    requires SortedBy(xs, key)
    ensures SortedBy(InsertBy(x, xs, key), key)
  {
    if xs != [] {
      forall y | y in xs
        ensures AtMost(key(xs[0]), key(y))
      {
        HeadIsLeast(xs, key, y);
      }
      AtMostTotal(key(x), key(xs[0]));
      if AtMost(key(x), key(xs[0])) {
        forall y | y in xs
          ensures AtMost(key(x), key(y))
        {
          AtMostTransitive(key(x), key(xs[0]), key(y));
        }
        SortedCons(x, xs, key);
      } else {
        InsertBySorts(x, xs[1..], key);
        forall y | y in InsertBy(x, xs[1..], key)
          ensures AtMost(key(xs[0]), key(y))
        {
          InsertByMember(x, xs[1..], key, y);
          assert y != x ==> y in xs;
        }
        SortedCons(xs[0], InsertBy(x, xs[1..], key), key);
      }
    }
  }

  lemma {:induction false} SortByKeeps<T>(xs: seq<T>, key: T -> string)
    ensures SortedBy(SortBy(xs, key), key)
    ensures multiset(SortBy(xs, key)) == multiset(xs)
  {
    if xs != [] {
      SortByKeeps(xs[1..], key);
      InsertByBag(xs[0], SortBy(xs[1..], key), key);
      InsertBySorts(xs[0], SortBy(xs[1..], key), key);
      assert xs == [xs[0]] + xs[1..];
    }
  }

  /** The head of a sorted sequence is a least element. */
  lemma HeadIsLeast<T>(xs: seq<T>, key: T -> string, x: T)
    requires SortedBy(xs, key) && x in xs
    ensures AtMost(key(xs[0]), key(x))
  {
    var i :| 0 <= i < |xs| && xs[i] == x;
    if i == 0 { AtMostTotal(key(x), key(x)); }
  }

  lemma HeadsAgree<T>(xs: seq<T>, ys: seq<T>, key: T -> string)
    requires xs != [] && ys != []
    requires SortedBy(xs, key) && SortedBy(ys, key) && multiset(xs) == multiset(ys)
    ensures key(xs[0]) == key(ys[0])
  {
    assert xs[0] in multiset(xs) && ys[0] in multiset(ys);
    HeadIsLeast(xs, key, ys[0]);
    HeadIsLeast(ys, key, xs[0]);
    AtMostAntisymmetric(key(xs[0]), key(ys[0]));
  }

  ghost predicate KeyInjectiveOn<T(!new)>(m: multiset<T>, key: T -> string) {
    forall a, b | a in m && b in m && key(a) == key(b) :: a == b
  }

  lemma HeadIn<T>(xs: seq<T>)
    requires xs != []
    ensures xs[0] in multiset(xs)
  {
  }

  lemma TailOf<T(!new)>(xs: seq<T>, key: T -> string)
    requires xs != [] && SortedBy(xs, key)
    ensures SortedBy(xs[1..], key) && multiset(xs[1..]) == multiset(xs) - multiset{xs[0]}
    ensures KeyInjectiveOn(multiset(xs), key) ==> KeyInjectiveOn(multiset(xs[1..]), key)
  {
    assert xs == [xs[0]] + xs[1..];
  }

  lemma SameLength<T>(xs: seq<T>, ys: seq<T>)
    requires multiset(xs) == multiset(ys)
    ensures |xs| == |ys|
  {
    assert |multiset(xs)| == |xs| && |multiset(ys)| == |ys|;
  }

  lemma SameHead<T(!new)>(xs: seq<T>, ys: seq<T>, key: T -> string)
    requires xs != [] && ys != [] && KeyInjectiveOn(multiset(xs), key)
    requires SortedBy(xs, key) && SortedBy(ys, key) && multiset(xs) == multiset(ys)
    ensures xs[0] == ys[0]
  {
    HeadsAgree(xs, ys, key);
    HeadIn(xs);
    HeadIn(ys);
  }

  lemma TailsAgree<T(!new)>(xs: seq<T>, ys: seq<T>, key: T -> string)
    requires xs != [] && ys != [] && xs[0] == ys[0] && KeyInjectiveOn(multiset(xs), key)
    requires SortedBy(xs, key) && SortedBy(ys, key) && multiset(xs) == multiset(ys)
    ensures multiset(xs[1..]) == multiset(ys[1..]) && KeyInjectiveOn(multiset(xs[1..]), key)
    ensures SortedBy(xs[1..], key) && SortedBy(ys[1..], key)
  {
    TailOf(xs, key);
    TailOf(ys, key);
  }

  /** Distinct keys pin a sorted arrangement down. */
  lemma {:induction false} SortedIsUnique<T(!new)>(xs: seq<T>, ys: seq<T>, key: T -> string)
    requires SortedBy(xs, key) && SortedBy(ys, key) && multiset(xs) == multiset(ys)
    requires KeyInjectiveOn(multiset(xs), key)
    ensures xs == ys
  {
    SameLength(xs, ys);
    if xs != [] {
      SameHead(xs, ys, key);
      TailsAgree(xs, ys, key);
      SortedIsUnique(xs[1..], ys[1..], key);
      assert xs == [xs[0]] + xs[1..] && ys == [ys[0]] + ys[1..];
    }
  }

  lemma DistinctMembers<T(!new)>(xs: seq<T>, key: T -> string)
    requires DistinctBy(xs, key)
    ensures KeyInjectiveOn(multiset(xs), key)
  {
    forall a, b | a in multiset(xs) && b in multiset(xs) && key(a) == key(b)
      ensures a == b
    {
      var i :| 0 <= i < |xs| && xs[i] == a;
      var j :| 0 <= j < |xs| && xs[j] == b;
    }
  }

  lemma SortsAgreeIff<T(!new)>(xs: seq<T>, ys: seq<T>, key: T -> string)
    requires DistinctBy(xs, key) && DistinctBy(ys, key)
    ensures SortBy(xs, key) == SortBy(ys, key) <==> multiset(xs) == multiset(ys)
  {
    SortByKeeps(xs, key);
    SortByKeeps(ys, key);
    if multiset(xs) == multiset(ys) {
      DistinctMembers(xs, key);
      SortedIsUnique(SortBy(xs, key), SortBy(ys, key), key);
    }
  }

  // ---- validation -------------------------------------------------------------------------------

  function MetricId(m: Metric): string {
    m.id
  }

  function FactId(f: ContractFact): string {
    f.id
  }

  function Facts(contracts: seq<Contract>): seq<ContractFact> {
    seq(|contracts|, i requires 0 <= i < |contracts| => contracts[i].fact)
  }

  predicate MetricsValid(r: Record) {
    && (r.metricFailures != [] ==> r.metrics != [])
    && (forall m | m in r.metrics :: m.blocking)
    && DistinctBy(r.metrics, MetricId)
  }

  predicate ContractsValid(r: Record) {
    DistinctBy(Facts(r.contracts), FactId)
  }

  predicate FailedAuthoritative(facts: seq<ContractFact>) {
    exists f | f in facts :: f.authoritative && !f.pass
  }

  predicate Triple(xs: seq<int>) {
    |xs| == 3 && forall x | x in xs :: x > 0
  }

  predicate CaptureValid(r: Record, renderSha: int) {
    var receipt := r.capture.receipt;
    && receipt.frame == r.frame
    && receipt.mode == "eevee"
    && receipt.scale > 0.0
    && Triple(receipt.resolution)
    && receipt.png == renderSha
    && (receipt.state.engine == "BLENDER_EEVEE" || receipt.state.engine == "BLENDER_EEVEE_NEXT")
    && receipt.state.resolution == receipt.resolution
    && r.capture.captureDigest == receipt
  }

  predicate VerdictConsistent(r: Record) {
    && r.pass == (r.criticPass && r.metrics == [] && !FailedAuthoritative(Facts(r.contracts)))
    && (r.decidedBy.Metrics? <==> r.metrics != [])
    && (r.decidedBy.NoOpticalSignal? ==> !r.criticPass && !r.pass)
  }

  predicate Valid(r: Record, renderSha: int) {
    MetricsValid(r) && ContractsValid(r) && VerdictConsistent(r) && CaptureValid(r, renderSha)
  }

  /** The capture of a record; `None` where the source raises. */
  function SemanticCapture(r: Record, momentId: string, renderSha: int, referenceSha: int): Option<Semantic> {
    if !Valid(r, renderSha) then None
    else
      var receipt := r.capture.receipt;
      Some(Semantic(momentId, r.frame, renderSha, referenceSha, receipt.mode, receipt.scale, receipt.resolution,
                    receipt.state, r.pass, r.criticPass, r.decidedBy, r.mean, SortBy(r.metrics, MetricId), r.scores,
                    SortBy(Facts(r.contracts), FactId)))
  }

  /** The measured facts of two records agree, up to the order of readings and contracts and
      ignoring prose, locators, warnings and the shading mode. */
  ghost predicate SameFacts(r: Record, s: Record) {
    && r.frame == s.frame
    && r.capture.receipt.scale == s.capture.receipt.scale
    && r.capture.receipt.resolution == s.capture.receipt.resolution
    && r.capture.receipt.state == s.capture.receipt.state
    && r.pass == s.pass && r.criticPass == s.criticPass && r.decidedBy == s.decidedBy && r.mean == s.mean
    && multiset(r.metrics) == multiset(s.metrics)
    && r.scores == s.scores
    && multiset(Facts(r.contracts)) == multiset(Facts(s.contracts))
  }

  /** The capture is a normal form. */
  lemma CaptureIsNormalForm(r: Record, s: Record, id: string, renderSha: int, refSha: int,
                            id': string, renderSha': int, refSha': int)
    requires Valid(r, renderSha) && Valid(s, renderSha')
    ensures SemanticCapture(r, id, renderSha, refSha) == SemanticCapture(s, id', renderSha', refSha')
            <==> id == id' && renderSha == renderSha' && refSha == refSha' && SameFacts(r, s)
  {
    SortsAgreeIff(r.metrics, s.metrics, MetricId);
    SortsAgreeIff(Facts(r.contracts), Facts(s.contracts), FactId);
  }

  lemma AuthoritativeFailures(contracts: seq<Contract>)
    ensures FailedAuthoritative(Facts(contracts))
            <==> !forall c | c in contracts && c.fact.authoritative :: c.fact.pass
  {
    var facts := Facts(contracts);
    forall c | c in contracts
      ensures c.fact in facts
    {
      var i :| 0 <= i < |contracts| && contracts[i] == c;
      assert facts[i] == c.fact;
    }
    if FailedAuthoritative(facts) {
      var f :| f in facts && f.authoritative && !f.pass;
      var i :| 0 <= i < |facts| && facts[i] == f;
      assert contracts[i] in contracts;
    }
  }

  /** What a valid record's verdict means: it passes exactly when the critic passed it, nothing measured blocks it and
      no authoritative contract failed; it was decided by the metrics exactly when something measured blocks. */
  lemma VerdictMeans(r: Record, renderSha: int)
    requires Valid(r, renderSha)
    ensures r.pass <==> r.criticPass && r.metrics == []
                        && forall c | c in r.contracts && c.fact.authoritative :: c.fact.pass
    ensures r.decidedBy.Metrics? <==> r.metrics != []
    ensures r.decidedBy.NoOpticalSignal? ==> !r.criticPass && !r.pass
    ensures r.metrics == [] ==> r.metricFailures == []
  {
    AuthoritativeFailures(r.contracts);
  }

  /** Of a valid record nothing that other parts of it determine can be changed unnoticed: not the verdict, the frame,
      the attested capture or what was rendered, and no reading or contract can be repeated. */
  lemma TamperingIsRefused(r: Record, renderSha: int, frame: int, receipt: Receipt, sha: int)
    requires Valid(r, renderSha)
    ensures !Valid(r.(pass := !r.pass), renderSha)
    ensures frame != r.frame ==> !Valid(r.(frame := frame), renderSha)
    ensures receipt != r.capture.receipt ==> !Valid(r.(capture := r.capture.(receipt := receipt)), renderSha)
    ensures sha != renderSha ==> !Valid(r, sha)
    ensures forall m | m in r.metrics :: !Valid(r.(metrics := r.metrics + [m]), renderSha)
    ensures forall c | c in r.contracts :: !Valid(r.(contracts := r.contracts + [c]), renderSha)
  {
    forall m | m in r.metrics
      ensures !Valid(r.(metrics := r.metrics + [m]), renderSha)
    {
      RepeatedIsRefused(r.metrics, MetricId, m);
    }
    forall c | c in r.contracts
      ensures !Valid(r.(contracts := r.contracts + [c]), renderSha)
    {
      assert Facts(r.contracts + [c]) == Facts(r.contracts) + [c.fact];
      var i :| 0 <= i < |r.contracts| && r.contracts[i] == c;
      assert Facts(r.contracts)[i] == c.fact;
      RepeatedIsRefused(Facts(r.contracts), FactId, c.fact);
    }
  }

  lemma RepeatedIsRefused<T>(xs: seq<T>, key: T -> string, x: T)
    requires x in xs
    ensures !DistinctBy(xs + [x], key)
  {
    var i :| 0 <= i < |xs| && xs[i] == x;
    assert (xs + [x])[i] == x && (xs + [x])[|xs|] == x;
  }

  /** What a valid record attests: an EEVEE render of its frame, at the resolution of its scene, of these bytes. */
  lemma CaptureMeans(r: Record, renderSha: int)
    requires Valid(r, renderSha)
    ensures var c := r.capture.receipt;
            && c.frame == r.frame && c.png == renderSha && c.scale > 0.0
            && c.mode == "eevee" && c.state.engine in {"BLENDER_EEVEE", "BLENDER_EEVEE_NEXT"}
            && |c.resolution| == 3 && c.resolution[0] > 0 && c.resolution[1] > 0 && c.resolution[2] > 0
            && c.state.resolution == c.resolution
    ensures forall m | m in r.metrics :: m.blocking
  {
    var resolution := r.capture.receipt.resolution;
    assert resolution[0] in resolution && resolution[1] in resolution && resolution[2] in resolution;
  }

  // ---- the two collecting loops ---------------------------------------------------------------------

  /** Typed readings: each must block, ids must not repeat, and the result is sorted. */
  method MetricReadings(r: Record) returns (readings: Option<seq<Metric>>)
    ensures readings == if MetricsValid(r) then Some(SortBy(r.metrics, MetricId)) else None
  {
    if r.metricFailures != [] && r.metrics == [] { return None; }
    var out: seq<Metric> := [];
    var seen: set<string> := {};
    var n := 0;
    while n < |r.metrics|
      invariant 0 <= n <= |r.metrics| && out == r.metrics[..n]
      invariant forall i | 0 <= i < n :: r.metrics[i].blocking
      invariant forall id :: id in seen <==> exists i | 0 <= i < n :: r.metrics[i].id == id
    {
      if !r.metrics[n].blocking {
        assert r.metrics[n] in r.metrics;
        return None;
      }
      out := out + [r.metrics[n]];
      seen := seen + {r.metrics[n].id};
      n := n + 1;
    }
    assert out == r.metrics;
    readings := if DistinctBy(out, MetricId) then Some(SortBy(out, MetricId)) else None;
  }

  /** Contract facts without their prose, ids must not repeat, sorted. */
  method ContractEvidence(r: Record) returns (facts: Option<seq<ContractFact>>)
    ensures facts == if ContractsValid(r) then Some(SortBy(Facts(r.contracts), FactId)) else None
  {
    var out: seq<ContractFact> := [];
    var n := 0;
    while n < |r.contracts|
      invariant 0 <= n <= |r.contracts| && out == Facts(r.contracts)[..n]
    {
      out := out + [r.contracts[n].fact];
      n := n + 1;
    }
    assert out == Facts(r.contracts);
    facts := if DistinctBy(out, FactId) then Some(SortBy(out, FactId)) else None;
  }

  // ---- the records that acceptance builds --------------------------------------------------------------

  datatype Verdict = Verdict(pass: bool, noOpticalSignal: bool, mean: real, scores: map<string, real>,
                             issues: seq<string>)

  /** What a render reports about itself. */
  datatype Rendered = Rendered(frame: int, mode: string, resolution: seq<int>, state: RenderFacts, workbench: string,
                               warnings: seq<string>, png: int)

  const ACCEPT_MODE := "eevee"
  const ACCEPT_SCALE := 0.5

  /** The attested capture of a render; `None` where the source raises. */
  function Stash(rendered: Rendered, frame: int): Option<RenderCapture> {
    if rendered.frame != frame || rendered.mode != ACCEPT_MODE || !Triple(rendered.resolution) then None
    else
      var receipt := Receipt(frame, ACCEPT_MODE, ACCEPT_SCALE, rendered.resolution, rendered.state, rendered.workbench,
                             rendered.warnings, rendered.png);
      Some(RenderCapture(receipt, receipt))
  }

  function Blocking(deltas: seq<Metric>): seq<Metric> {
    if deltas == [] then [] else (if deltas[0].blocking then [deltas[0]] else []) + Blocking(deltas[1..])
  }

  lemma {:induction false} BlockingOnly(deltas: seq<Metric>)
    ensures forall m :: m in Blocking(deltas) <==> m in deltas && m.blocking
  {
    if deltas != [] {
      BlockingOnly(deltas[1..]);
      assert deltas == [deltas[0]] + deltas[1..];
    }
  }

  /** Blocking deltas decide a moment without the critic; otherwise the critic's verdict stands, and
      failed authoritative contracts can only turn a pass into a failure. */
  function JudgedRecord(frame: int, ref: string, render: string, capture: RenderCapture, deltas: seq<Metric>,
                        prose: Metric -> string, restated: Verdict, critic: Verdict, contracts: seq<Contract>): Record {
    var blocking := Blocking(deltas);
    var verdict := if blocking != [] then restated.(pass := false, noOpticalSignal := false) else critic;
    Record(frame, ref, render, capture, verdict.mean,
           verdict.pass && blocking == [] && !FailedAuthoritative(Facts(contracts)),
           verdict.pass,
           if blocking != [] then Metrics else if verdict.noOpticalSignal then NoOpticalSignal else Critic,
           seq(|blocking|, i requires 0 <= i < |blocking| => prose(blocking[i])),
           blocking, verdict.scores, verdict.issues, contracts)
  }

  /** What a judgment says: a moment passes exactly when nothing measured blocks it, the critic passed it and every
      authoritative contract holds.  The critic is heard exactly when nothing blocks, and the readings are the blocking
      deltas. */
  lemma JudgmentMeans(frame: int, ref: string, render: string, capture: RenderCapture, deltas: seq<Metric>,
                      prose: Metric -> string, restated: Verdict, critic: Verdict, contracts: seq<Contract>)
    ensures var r := JudgedRecord(frame, ref, render, capture, deltas, prose, restated, critic, contracts);
            var blocked := exists m :: m in deltas && m.blocking;
            && (r.pass <==> !blocked && critic.pass && forall c | c in contracts && c.fact.authoritative :: c.fact.pass)
            && (r.criticPass <==> !blocked && critic.pass) && (r.decidedBy.Metrics? <==> blocked)
            && (forall m :: m in r.metrics <==> m in deltas && m.blocking)
            && (r.mean, r.scores, r.issues)
               == (if blocked then (restated.mean, restated.scores, restated.issues)
                   else (critic.mean, critic.scores, critic.issues))
            && (!blocked ==> (r.decidedBy.NoOpticalSignal? <==> critic.noOpticalSignal))
  {
    var blocking := Blocking(deltas);
    BlockingOnly(deltas);
    if blocking != [] { assert blocking[0] in blocking; }
    AuthoritativeFailures(contracts);
  }

  /** A record that acceptance builds from any deltas, verdicts and contracts over a stashed render passes the validator
      exactly when the blocking deltas and the contracts have distinct ids, the render is still the stashed one and was
      an EEVEE render at its own resolution, and an empty plate was judged a failure. */
  lemma JudgedRecordIsValidIff(rendered: Rendered, frame: int, ref: string, render: string, deltas: seq<Metric>,
                               prose: Metric -> string, restated: Verdict, critic: Verdict, contracts: seq<Contract>,
                               renderSha: int)
    ensures Stash(rendered, frame).Some?
            <==> && rendered.frame == frame && rendered.mode == "eevee" && |rendered.resolution| == 3
                 && forall x | x in rendered.resolution :: x > 0
    ensures Stash(rendered, frame).Some? ==>
              (Valid(JudgedRecord(frame, ref, render, Stash(rendered, frame).value, deltas, prose, restated, critic,
                                  contracts), renderSha)
               <==>
                 && DistinctBy(Blocking(deltas), MetricId)
                 && DistinctBy(Facts(contracts), FactId)
                 && renderSha == rendered.png
                 && rendered.state.engine in {"BLENDER_EEVEE", "BLENDER_EEVEE_NEXT"}
                 && rendered.state.resolution == rendered.resolution
                 && (Blocking(deltas) == [] && critic.noOpticalSignal ==> !critic.pass))
  {
    BlockingOnly(deltas);
  }

  /** The reading ids stay distinct when the deltas' ids are. */
  lemma {:induction false} DistinctDeltas(deltas: seq<Metric>)
    requires DistinctBy(deltas, MetricId)
    ensures DistinctBy(Blocking(deltas), MetricId)
  {
    if deltas != [] {
      DistinctDeltas(deltas[1..]);
      BlockingOnly(deltas[1..]);
      var rest := Blocking(deltas[1..]);
      forall j | 0 <= j < |rest|
        ensures MetricId(deltas[0]) != MetricId(rest[j])
      {
        var m := rest[j];
        assert m in rest;
        var i :| 0 <= i < |deltas[1..]| && deltas[1..][i] == m;
      }
    }
  }
}
