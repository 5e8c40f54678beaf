/**
  Sealing an acceptance attempt and re-verifying it before the final render.

  Digests are taken to be injective: an authority's digest is the authority, a moment's evidence
  digest is its semantic capture.
 */
module AcceptanceSeal {
  import opened Common
  import opened AcceptanceEvidence

  datatype Selected = Selected(id: string, frame: int, ref: string, refSha: int, fingerprint: int)

  /** Selected plan and view plus the accepted build that acceptance read. */
  datatype Authority = Authority(
    bundle: int, view: int, debtState: int, acceptanceSha: int, layersSha: int, moments: seq<Selected>, chain: seq<int>)

  /** The judged records in the order of their keys. */
  type Results = seq<(string, Record)>

  /** The digest of every readable evidence file. */
  type Files = map<string, int>

  datatype MomentOutcome = MomentOutcome(id: string, passed: bool, decidedBy: Decider, evidence: Semantic)

  datatype Outcome = Outcome(authority: Authority, bundle: int, view: int, chain: seq<int>, moments: seq<MomentOutcome>)

  function SelectedId(s: Selected): string {
    s.id
  }

  /** At least one moment, and no id twice. */
  predicate Selectable(a: Authority) {
    a.moments != [] && DistinctBy(a.moments, SelectedId)
  }

  function Ids(results: Results): seq<string> {
    seq(|results|, i requires 0 <= i < |results| => results[i].0)
  }

  function SelectedIds(a: Authority): seq<string> {
    seq(|a.moments|, i requires 0 <= i < |a.moments| => a.moments[i].id)
  }

  /** One moment's capture, re-hashing its files; it must be of the selected frame and reference. */
  function MomentCapture(files: Files, result: (string, Record), selected: Selected): Option<Semantic> {
    var (id, r) := result;
    if r.render !in files || r.ref !in files then None
    else
      match SemanticCapture(r, id, files[r.render], files[r.ref])
      case None => None
      case Some(semantic) =>
        if semantic.frame != selected.frame || semantic.referenceSha != selected.refSha then None else Some(semantic)
  }

  function AllCaptures(files: Files, results: Results, moments: seq<Selected>): Option<seq<Semantic>>
    requires |results| == |moments|
  {
    if results == [] then Some([])
    else
      match (MomentCapture(files, results[0], moments[0]), AllCaptures(files, results[1..], moments[1..]))
      case (Some(first), Some(rest)) => Some([first] + rest)
      case _ => None
  }

  function Captures(a: Authority, results: Results, files: Files): Option<seq<Semantic>> {
    if !Selectable(a) || Ids(results) != SelectedIds(a) then None
    else
      assert |Ids(results)| == |SelectedIds(a)|;
      AllCaptures(files, results, a.moments)
  }

  function Sealed(s: Semantic): MomentOutcome {
    MomentOutcome(s.momentId, s.pass, s.decidedBy, s)
  }

  function SealedAll(captures: seq<Semantic>): seq<MomentOutcome> {
    seq(|captures|, i requires 0 <= i < |captures| => Sealed(captures[i]))
  }

  function CompileOutcome(a: Authority, results: Results, files: Files): Option<Outcome> {
    match Captures(a, results, files)
    case None => None
    case Some(captures) => Some(Outcome(a, a.bundle, a.view, a.chain, SealedAll(captures)))
  }

  // ---- later verification ---------------------------------------------------------------------------

  /** Each sealed moment still has its evidence. */
  predicate EvidenceCurrent(outcome: Outcome, a: Authority, results: Results, files: Files) {
    && Selectable(a)
    && |outcome.moments| == |a.moments| == |results|
    && forall i | 0 <= i < |outcome.moments| ::
         && outcome.moments[i].id == a.moments[i].id == results[i].0
         && var observed := MomentCapture(files, results[i], a.moments[i]);
            && observed.Some?
            && observed.value == outcome.moments[i].evidence
            && observed.value.decidedBy == outcome.moments[i].decidedBy
  }

  predicate RequireCurrentAccepted(outcome: Outcome, a: Authority, results: Results, files: Files, debtsSatisfied: bool,
                                   dueClear: bool) {
    && outcome.authority == a && outcome.bundle == a.bundle && outcome.view == a.view && outcome.chain == a.chain
    && EvidenceCurrent(outcome, a, results, files)
    && (forall m | m in outcome.moments :: m.passed)
    && debtsSatisfied && dueClear
  }

  // ---- the round trip ----------------------------------------------------------------------------------

  lemma {:induction false} AllCapturesPointwise(files: Files, results: Results, moments: seq<Selected>)
    requires |results| == |moments|
    ensures AllCaptures(files, results, moments).Some? <==>
              forall i | 0 <= i < |results| :: MomentCapture(files, results[i], moments[i]).Some?
    ensures AllCaptures(files, results, moments).Some? ==>
              var captures := AllCaptures(files, results, moments).value;
              && |captures| == |results|
              && forall i | 0 <= i < |results| :: MomentCapture(files, results[i], moments[i]) == Some(captures[i])
  {
    if results != [] {
      AllCapturesPointwise(files, results[1..], moments[1..]);
      if AllCaptures(files, results, moments).Some? {
        forall i | 0 <= i < |results|
          ensures MomentCapture(files, results[i], moments[i]) == Some(AllCaptures(files, results, moments).value[i])
        {
          if i > 0 { assert results[i] == results[1..][i - 1] && moments[i] == moments[1..][i - 1]; }
        }
      } else if forall i | 0 <= i < |results| :: MomentCapture(files, results[i], moments[i]).Some? {
        forall i | 0 <= i < |results[1..]|
          ensures MomentCapture(files, results[1..][i], moments[1..][i]).Some?
        {
          assert results[1..][i] == results[i + 1];
        }
        assert false;
      }
    }
  }

  /** A moment captures exactly when both its files are readable, its record is valid for the bytes rendered, and it is
      of the frame and reference that were selected; the capture names the moment, the bytes and the verdict. */
  lemma MomentCaptureIff(files: Files, result: (string, Record), selected: Selected)
    ensures var r := result.1;
            MomentCapture(files, result, selected).Some?
            <==> && r.render in files && r.ref in files && Valid(r, files[r.render])
                 && r.frame == selected.frame && files[r.ref] == selected.refSha
    ensures MomentCapture(files, result, selected).Some? ==>
              var (r, c) := (result.1, MomentCapture(files, result, selected).value);
              && c.momentId == result.0 && c.renderSha == files[r.render] && c.referenceSha == files[r.ref]
              && c.pass == r.pass && c.decidedBy == r.decidedBy
  {
  }

  /** Moments can be selected when there is one and there are as many ids as moments. */
  lemma SelectableIff(a: Authority)
    ensures Selectable(a) <==> a.moments != [] && |set id | id in SelectedIds(a)| == |a.moments|
  {
    var ids := SelectedIds(a);
    DistinctIff(ids);
    if Distinct(ids) {
      forall i, j | 0 <= i < j < |a.moments|
        ensures SelectedId(a.moments[i]) != SelectedId(a.moments[j])
      {
        assert ids[i] != ids[j];
      }
    } else {
      var i, j :| 0 <= i < j < |ids| && ids[i] == ids[j];
      assert SelectedId(a.moments[i]) == SelectedId(a.moments[j]);
    }
  }

  lemma CapturesPointwise(a: Authority, results: Results, files: Files)
    ensures Captures(a, results, files).Some? <==>
              && Selectable(a) && |results| == |a.moments|
              && forall i | 0 <= i < |results| ::
                   results[i].0 == a.moments[i].id && MomentCapture(files, results[i], a.moments[i]).Some?
    ensures Captures(a, results, files).Some? ==>
              var captures := Captures(a, results, files).value;
              && |captures| == |results|
              && forall i | 0 <= i < |results| :: MomentCapture(files, results[i], a.moments[i]) == Some(captures[i])
  {
    if |results| == |a.moments| {
      AllCapturesPointwise(files, results, a.moments);
      if forall i | 0 <= i < |results| :: results[i].0 == a.moments[i].id {
        assert Ids(results) == SelectedIds(a);
      } else {
        var i :| 0 <= i < |results| && results[i].0 != a.moments[i].id;
        assert Ids(results)[i] != SelectedIds(a)[i];
      }
    } else {
      assert |Ids(results)| != |SelectedIds(a)|;
    }
  }

  /** Evidence is current exactly when a fresh capture gives what was sealed. */
  lemma EvidenceCurrentIff(a: Authority, captures: seq<Semantic>, now: Authority, results: Results, files: Files)
    requires Selectable(now) && |captures| == |now.moments|
    requires forall i | 0 <= i < |captures| :: captures[i].momentId == now.moments[i].id
    ensures EvidenceCurrent(Outcome(a, a.bundle, a.view, a.chain, SealedAll(captures)), now, results, files)
            <==> Captures(now, results, files) == Some(captures)
  {
    var outcome := Outcome(a, a.bundle, a.view, a.chain, SealedAll(captures));
    CapturesPointwise(now, results, files);
    if EvidenceCurrent(outcome, now, results, files) {
      assert Captures(now, results, files).value == captures;
    }
  }

  /** Seal and verify: an outcome is accepted later exactly when every moment had passed, plan, view,
      debt state, moments and chain are unchanged, a fresh capture repeats the sealed facts, and the
      completion gates are clear. */
  lemma SealedOutcomeAcceptedIff(a: Authority, results: Results, files: Files, now: Authority, later: Results,
                                 laterFiles: Files, debtsSatisfied: bool, dueClear: bool)
    requires CompileOutcome(a, results, files).Some?
    ensures RequireCurrentAccepted(CompileOutcome(a, results, files).value, now, later, laterFiles, debtsSatisfied,
                                   dueClear)
            <==>
              && now == a
              && Captures(now, later, laterFiles) == Captures(a, results, files)
              && (forall i | 0 <= i < |results| :: results[i].1.pass)
              && debtsSatisfied && dueClear
  {
    var captures := Captures(a, results, files).value;
    var outcome := CompileOutcome(a, results, files).value;
    CapturesPointwise(a, results, files);
    forall i | 0 <= i < |results|
      ensures outcome.moments[i].passed == results[i].1.pass && captures[i].momentId == a.moments[i].id
    {
      MomentCaptureIff(files, results[i], a.moments[i]);
    }
    if forall m | m in outcome.moments :: m.passed {
      forall i | 0 <= i < |results|
        ensures results[i].1.pass
      {
        assert outcome.moments[i] in outcome.moments;
      }
    }
    if now == a {
      EvidenceCurrentIff(a, captures, now, later, laterFiles);
    }
  }

  /** The moments as they are captured, each sealed as passed. */
  function AllPassed(captures: seq<Semantic>): seq<MomentOutcome> {
    seq(|captures|, i requires 0 <= i < |captures| =>
      MomentOutcome(captures[i].momentId, true, captures[i].decidedBy, captures[i]))
  }

  /** Of all outcomes there could be in the ledger, exactly one is accepted: the one that seals the present authority
      and the present evidence of every moment, each as passed - if it captures, and the completion gates are clear. */
  lemma AcceptedOutcomeIff(o: Outcome, a: Authority, results: Results, files: Files, debtsSatisfied: bool,
                           dueClear: bool)
    ensures RequireCurrentAccepted(o, a, results, files, debtsSatisfied, dueClear)
            <==> && Captures(a, results, files).Some?
                 && o == Outcome(a, a.bundle, a.view, a.chain, AllPassed(Captures(a, results, files).value))
                 && debtsSatisfied && dueClear
  {
    CapturesPointwise(a, results, files);
    if |results| == |a.moments| {
      forall i | 0 <= i < |results|
        ensures MomentCapture(files, results[i], a.moments[i]).Some? ==>
                  MomentCapture(files, results[i], a.moments[i]).value.momentId == results[i].0
      {
        MomentCaptureIff(files, results[i], a.moments[i]);
      }
    }
    if RequireCurrentAccepted(o, a, results, files, debtsSatisfied, dueClear) {
      var captures := Captures(a, results, files).value;
      forall i | 0 <= i < |captures|
        ensures o.moments[i] == AllPassed(captures)[i]
      {
        assert o.moments[i] in o.moments;
      }
      assert o.moments == AllPassed(captures);
    }
  }

  /** The verdicts it accepts are those of the outcome: it vouches for every moment's own record exactly when the
      outcome was sealed with the verdicts of its evidence, as compiling does. */
  lemma AcceptedMomentsPassIff(o: Outcome, a: Authority, results: Results, files: Files)
    requires RequireCurrentAccepted(o, a, results, files, true, true)
    ensures |results| == |o.moments|
    ensures (forall i | 0 <= i < |results| :: results[i].1.pass)
            <==> forall m | m in o.moments :: m.passed == m.evidence.pass
  {
    AcceptedOutcomeIff(o, a, results, files, true, true);
    CapturesPointwise(a, results, files);
    forall i | 0 <= i < |results|
      ensures o.moments[i].passed && o.moments[i].evidence.pass == results[i].1.pass
      ensures o.moments[i] in o.moments
    {
      MomentCaptureIff(files, results[i], a.moments[i]);
    }
  }

  /** The two records are of one set of bytes and of one set of measured facts. */
  ghost predicate SameMoment(files: Files, r: Record, files': Files, s: Record) {
    && r.render in files && s.render in files' && files[r.render] == files'[s.render]
    && r.ref in files && s.ref in files' && files[r.ref] == files'[s.ref]
    && SameFacts(s, r)
  }

  /** Read through the normal form: the evidence is unchanged exactly when every moment still has a
      valid record of the same measured facts over the same render and reference bytes. */
  lemma UnchangedEvidenceMeansSameFacts(a: Authority, results: Results, files: Files, later: Results, laterFiles: Files)
    requires Captures(a, results, files).Some? && Captures(a, later, laterFiles).Some?
    ensures |later| == |results|
    ensures Captures(a, later, laterFiles) == Captures(a, results, files) <==>
              forall i | 0 <= i < |results| :: SameMoment(files, results[i].1, laterFiles, later[i].1)
  {
    CapturesPointwise(a, results, files);
    CapturesPointwise(a, later, laterFiles);
    var was, now := Captures(a, results, files).value, Captures(a, later, laterFiles).value;
    forall i | 0 <= i < |results|
      ensures now[i] == was[i] <==> SameMoment(files, results[i].1, laterFiles, later[i].1)
    {
      var (id, r) := results[i];
      var (id', s) := later[i];
      CaptureIsNormalForm(s, r, id', laterFiles[s.render], laterFiles[s.ref], id, files[r.render], files[r.ref]);
    }
    if forall i | 0 <= i < |results| :: now[i] == was[i] {
      assert now == was;
    }
  }
}
