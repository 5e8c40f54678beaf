/**
  What publishing the final render guarantees, stated exactly for every schedule of faults and of another writer's
  replacements: what the output holds, how the call ends, when it is atomic, whose bytes are kept and whose are lost.
  The methods compute the transaction function call by call.
 */
module MediaPublication {
  import opened Common
  import opened MediaTransaction

  // ---- the end, read off the schedule ---------------------------------------------------------------------

  lemma HeldOutput(s: Store, postHolds: bool)
    requires Backup !in s.files && s.FreshInodes() && s.Held(postHolds)
    ensures var (t, end) := s.Transaction(postHolds);
            var last := s.ReplaceAt() + if s.Copied().Some? then 5 else 4;
            && BytesAt(t.files, Output) == s.world.Latest(s.ReplaceAt() + 1, t.calls, BytesAt(s.files, Staged))
            && (end.Published? || end.PublishedThenFailed?)
            && (end.Published? <==> s.world.Clear(s.ReplaceAt() + 3, last))
            && (end.Published? ==> t.calls == last && Backup !in t.files)
  {
    SettlesExactly(s, postHolds);
    var a := AtSettlement(s, postHolds);
    CommitKeepsOutput(a, s.Copied());
    AsideJoin(AfterReplace(s), a, s.Transaction(postHolds).0);
  }

  lemma RolledBackExactly(s: Store, postHolds: bool)
    requires Backup !in s.files && s.FreshInodes() && s.Replaced() && !s.Held(postHolds)
    ensures var (t, end) := s.Transaction(postHolds);
            && (if s.Restores() then PutBack(s.world, s.Copied(), s.RestoreAt(), t)
                else LeftAlone(s, t) && end == RollbackFailed(s.Copied().Some?))
            && (end.RolledBack? || end.RollbackFailed?)
            && (end.RolledBack? <==>
                  s.Owned() && s.world.Clear(s.RollbackAt() + 1, s.RestoreAt() + 3) && s.ReadsBack())
  {
    SettlesExactly(s, postHolds);
    RollBackExactly(s, AfterReplace(s), AtSettlement(s, postHolds));
  }

  /** The replace was not made, or raised. */
  lemma UnreplacedOutput(s: Store, postHolds: bool)
    requires Backup !in s.files && s.FreshInodes() && !s.Replaced()
    ensures var (t, end) := s.Transaction(postHolds);
            && end == NotPublished
            && if s.Interrupted()
               then BytesAt(t.files, Output) == s.world.Latest(s.ReplaceAt() + 1, t.calls, BytesAt(s.files, Staged))
               else Aside(s, t)
  {
    if s.Interrupted() {
      InterruptedOutput(s, postHolds);
    } else if s.Reached() {
      FailedReplaceOutput(s, postHolds);
    } else {
      EndsBeforeReplace(s, postHolds);
    }
  }

  lemma FailedReplaceOutput(s: Store, postHolds: bool)
    requires Backup !in s.files && s.FreshInodes() && s.Reached() && s.world.faults(s.ReplaceAt()).Before?
    ensures var (t, end) := s.Transaction(postHolds);
            end == NotPublished && Aside(s, t)
  {
    ReachesReplace(s, postHolds);
    ReplaceStays(s, Prepared(s));
  }

  lemma InterruptedOutput(s: Store, postHolds: bool)
    requires Backup !in s.files && s.FreshInodes() && s.Interrupted()
    ensures Ready(s, Prepared(s)) && Swapped(s, AfterReplace(s))
    ensures Aside(AfterReplace(s), s.Transaction(postHolds).0)
    ensures s.Transaction(postHolds)
            == (if s.Copied().Some? then AfterReplace(s).Unlink(Backup) else AfterReplace(s), NotPublished)
  {
    ReachesReplace(s, postHolds);
    ReplaceSwaps(s, Prepared(s));
    AsideUnlink(AfterReplace(s));
    AsideSelf(AfterReplace(s));
  }

  /** What the output holds in the end is what the schedule says, for every schedule of faults and writes. */
  lemma OutputIsFinal(s: Store, postHolds: bool)
    requires Backup !in s.files && s.FreshInodes()
    ensures var t := s.Transaction(postHolds).0;
            BytesAt(t.files, Output) == s.FinalOutput(postHolds, t.calls)
  {
    if !s.Replaced() {
      UnreplacedOutput(s, postHolds);
    } else if s.Held(postHolds) {
      HeldOutput(s, postHolds);
    } else {
      RolledBackExactly(s, postHolds);
    }
  }

  /** How the call ends, read off the schedule. */
  lemma EndIsExact(s: Store, postHolds: bool)
    requires Backup !in s.files && s.FreshInodes()
    ensures var (t, end) := s.Transaction(postHolds);
            var last := s.ReplaceAt() + if s.Copied().Some? then 5 else 4;
            && (end.NotPublished? <==> !s.Replaced())
            && (end.Published? || end.PublishedThenFailed? <==> s.Held(postHolds))
            && (end.Published? <==> s.Held(postHolds) && s.world.Clear(s.ReplaceAt() + 3, last))
            && (end.RolledBack? <==>
                  && s.Replaced() && !s.Held(postHolds) && s.Owned()
                  && s.world.Clear(s.RollbackAt() + 1, s.RestoreAt() + 3) && s.ReadsBack())
            && (end.RollbackFailed? && !s.Restores() ==> end.retained == s.Copied().Some?)
  {
    if !s.Replaced() {
      UnreplacedOutput(s, postHolds);
    } else if s.Held(postHolds) {
      HeldOutput(s, postHolds);
    } else {
      RolledBackExactly(s, postHolds);
    }
  }

  /** No other writer. */
  ghost predicate Alone(s: Store) {
    forall i: nat :: s.world.writes(i).None?
  }

  lemma AloneMeans(s: Store, from: nat, to: nat, base: Option<Bytes>)
    requires Alone(s)
    ensures s.world.Quiet(from, to) && s.world.Latest(from, to, base) == base
  {
    LatestQuiet(s.world, from, to, base);
  }

  /** Without another writer: when the publishing replace is reached, what was copied, and what is left. */
  lemma AloneFinal(s: Store, postHolds: bool, last: nat)
    requires Alone(s)
    ensures s.Copied() == BytesAt(s.files, Output) && s.ReadsBack()
    ensures s.FinalOutput(postHolds, last)
            == if s.Held(postHolds) || s.Interrupted() || (s.Replaced() && !s.Restores())
               then BytesAt(s.files, Staged) else BytesAt(s.files, Output)
  {
    var before := BytesAt(s.files, Output);
    AloneMeans(s, s.calls, s.calls + 2, before);
    AloneMeans(s, s.calls, last, before);
    AloneMeans(s, s.RestoreAt() + 1, s.RestoreAt() + 3, before);
    AloneMeans(s, s.RestoreAt() + 1, last, before);
    AloneMeans(s, s.ReplaceAt() + 1, last, BytesAt(s.files, Staged));
  }

  /** Published with the postcondition having held, or the exact predecessor. */
  ghost predicate Atomic(s: Store, postHolds: bool) {
    var t := s.Transaction(postHolds).0;
    || BytesAt(t.files, Output) == BytesAt(s.files, Output)
    || (s.Held(postHolds) && BytesAt(t.files, Output) == BytesAt(s.files, Staged))
  }

  /** Without another writer the transaction is atomic exactly when the publishing replace is not interrupted and a
      rollback, if there is one, takes effect - unless staged and existing bytes are the same anyway. */
  lemma AtomicIff(s: Store, postHolds: bool)
    requires Backup !in s.files && s.FreshInodes() && Alone(s)
    ensures Atomic(s, postHolds)
            <==> || BytesAt(s.files, Staged) == BytesAt(s.files, Output)
                 || !(s.Interrupted() || (s.Replaced() && !s.Held(postHolds) && !s.Restores()))
  {
    OutputIsFinal(s, postHolds);
    AloneFinal(s, postHolds, s.Transaction(postHolds).0.calls);
  }

  ghost predicate AtMostOneFault(s: Store) {
    forall i: nat, j: nat :: !s.world.faults(i).Clean? && !s.world.faults(j).Clean? ==> i == j
  }

  /** A fault that keeps a rollback after a refusing postcondition from taking effect: a failure before the restoring
      call, or of that call before it takes effect. */
  ghost predicate RollbackFaulted(s: Store) {
    || !s.world.Clear(s.ReplaceAt() + 3, s.RestoreAt())
    || s.world.faults(s.RestoreAt()).Before?
  }

  /** One fault at any call: atomic exactly when it is neither an interrupt of the publishing replace after it took
      effect nor, when the postcondition refuses, a failure that keeps the rollback from taking effect. */
  lemma OneFaultAtomicIff(s: Store, postHolds: bool)
    requires Backup !in s.files && s.FreshInodes() && Alone(s) && AtMostOneFault(s)
    requires BytesAt(s.files, Staged) != BytesAt(s.files, Output)
    ensures Atomic(s, postHolds) <==> !s.Interrupted() && !(s.Replaced() && !postHolds && RollbackFaulted(s))
  {
    AtomicIff(s, postHolds);
    AloneFinal(s, postHolds, 0);
    if s.Replaced() && !s.Held(postHolds) { OneFaultRestores(s, postHolds); }
  }

  lemma OnlyFault(s: Store, i: nat)
    requires AtMostOneFault(s) && !s.world.faults(i).Clean?
    ensures forall j: nat | j != i :: s.world.faults(j).Clean?
  {
  }

  lemma OneFaultRestores(s: Store, postHolds: bool)
    requires AtMostOneFault(s) && Alone(s) && s.Replaced() && !s.Held(postHolds)
    ensures s.Restores() <==> postHolds || !RollbackFaulted(s)
  {
    var w, p := s.world, s.ReplaceAt();
    AloneMeans(s, p + 1, s.RollbackAt() + 1, None);
    ClearStep(w, p + 1, p + 3);
    ClearStep(w, p + 2, p + 3);
    ClearStep(w, s.RollbackAt(), s.RestoreAt());
    if !w.faults(p + 1).Clean? {
      OnlyFault(s, p + 1);
    } else if !w.faults(p + 2).Clean? {
      OnlyFault(s, p + 2);
    }
  }

  /** No fault, no other writer: the staged file is published exactly when the postcondition holds, and otherwise the
      predecessor is restored. */
  lemma CleanTransaction(s: Store, postHolds: bool)
    requires Backup !in s.files && s.FreshInodes() && Staged in s.files && Alone(s)
    requires forall i: nat :: s.world.faults(i).Clean?
    ensures var (t, end) := s.Transaction(postHolds);
            && end == (if postHolds then Published else RolledBack)
            && BytesAt(t.files, Output) == if postHolds then BytesAt(s.files, Staged) else BytesAt(s.files, Output)
  {
    EndIsExact(s, postHolds);
    OutputIsFinal(s, postHolds);
    AloneFinal(s, postHolds, s.Transaction(postHolds).0.calls);
    AloneMeans(s, s.calls + 2, s.calls + 5, None);
    AloneMeans(s, s.ReplaceAt() + 1, s.RollbackAt() + 1, None);
  }

  /** An interrupted replace: the output is the staged file although no postcondition ran, and the predecessor is in no
      file - exactly when the clean-up of the backup takes effect. */
  lemma InterruptedReplaceLosesPredecessor(s: Store, postHolds: bool)
    requires Backup !in s.files && s.FreshInodes() && s.Interrupted()
    ensures var (t, end) := s.Transaction(postHolds);
            && end == NotPublished && Staged !in t.files
            && BytesAt(t.files, Output) == s.world.Latest(s.ReplaceAt() + 1, t.calls, BytesAt(s.files, Staged))
            && (s.Copied().Some? ==> (Backup !in t.files <==> !s.world.faults(s.ReplaceAt() + 1).Before?))
  {
    InterruptedOutput(s, postHolds);
    AsideCall(AfterReplace(s));
  }

  /** A schedule that does it, for any disk with a staged file and a predecessor. */
  lemma InterruptAt(s: Store, postHolds: bool)
    requires Backup !in s.files && s.FreshInodes() && Staged in s.files && Output in s.files
    ensures var s' := s.(world := World(n => if n == s.calls + 6 then After else Clean, n => None));
            && s'.Interrupted()
            && var (t, end) := s'.Transaction(postHolds);
               end == NotPublished && FileAt(t.files, Output) == Some(s.files[Staged])
               && Staged !in t.files && Backup !in t.files
  {
    var s' := s.(world := World(n => if n == s.calls + 6 then After else Clean, n => None));
    AloneMeans(s', s.calls, s.calls + 2, BytesAt(s.files, Output));
    assert s'.Interrupted();
    InterruptedReplaceLosesPredecessor(s', postHolds);
    InterruptedOutput(s', postHolds);
    AloneMeans(s', AfterReplace(s').calls, s'.Transaction(postHolds).0.calls, None);
  }

  // ---- conservation ---------------------------------------------------------------------------------------

  lemma BackupCalled(s: Store, predecessor: Option<Bytes>)
    requires BytesAt(s.files, Backup) == predecessor
    ensures KeepsOn(s, s.Called(), predecessor) && BytesAt(s.Called().files, Backup) == predecessor
  {
    if s.world.writes(s.calls).Some? { OneState(s, s.Called(), predecessor); }
  }

  /** The disk when the output has been opened to be preserved. */
  function Opened(s: Store): Store {
    s.Called().Called()
  }

  lemma PreparedKeeps(s: Store)
    requires Backup !in s.files && s.FreshInodes() && s.Reached()
    ensures KeepsOn(Opened(s), Prepared(s), s.Copied())
  {
    var o := Opened(s);
    UpToReplace(s);
    ReachedUnfolds(s);
    OpenSees(s);
    AsideCall(s.Called());
    if s.Copied().Some? {
      PreserveKeeps(o, o.files[Output]);
    }
  }

  lemma PreserveKeeps(s: Store, source: File)
    requires FileAt(s.files, Output) == Some(source) && s.Preserve(source).1.Ok? && s.world.writes(s.calls).None?
    ensures KeepsOn(s, s.Preserve(source).0, Some(source.bytes))
  {
    var kept := Some(source.bytes);
    var s1 := s.Create(Backup, source.bytes);
    PreserveEnds(s, source);
    OneState(s, s1, kept);
    BackupCalled(s1, kept);
    BackupCalled(s1.Called(), kept);
    BackupCalled(s1.Called().Called(), kept);
    KeepsOnAgain(s, s1, s1.Called(), kept);
    KeepsOnAgain(s, s1.Called(), s1.Called().Called(), kept);
    KeepsOnAgain(s, s1.Called().Called(), s1.Called().Called().Called(), kept);
  }

  lemma SettlementKeeps(s: Store, postHolds: bool)
    requires Backup !in s.files && s.FreshInodes() && s.Replaced()
    ensures Staged in Prepared(s).files
    ensures KeepsOn(Opened(s), AtSettlement(s, postHolds), s.Copied())
  {
    var kept := s.Copied();
    ReachesReplace(s, postHolds);
    SettlesAfterReplace(s, postHolds);
    PreparedKeeps(s);
    var p := Prepared(s);
    var r := AfterReplace(s);
    BackupCalled(p, kept);
    OneState(p.Called(), r, kept);
    BackupCalled(r, kept);
    BackupCalled(r.Called(), kept);
    KeepsOnAgain(Opened(s), p, p.Called(), kept);
    KeepsOnAgain(Opened(s), p.Called(), r, kept);
    KeepsOnAgain(Opened(s), r, r.Called(), kept);
    KeepsOnAgain(Opened(s), r.Called(), r.Called().Called(), kept);
  }

  /** The end of a rollback that copied nothing: there is nothing to keep. */
  lemma AbsenceKeeps(s: Store, a: Store, tentative: File)
    requires BytesAt(a.files, Backup) == None
    ensures KeepsOn(a, a.RollBack(tentative, None).0, None)
  {
    var o := a.Called();
    AsideCall(a);
    AsideCall(o);
    if a.Is(tentative).1 && o.Fault().Clean? {
      ConfirmExactly(o.Unlink(Output), None);
    }
  }

  /** After the backup was moved back. */
  lemma MovedKeeps(m: Store, predecessor: Option<Bytes>)
    requires predecessor.Some? && BytesAt(m.files, Output) == predecessor && Backup !in m.files
    ensures var (u, ok) := m.Confirm(predecessor);
            && Aside(m, m.Unlink(Backup))
            && Aside(m, if ok then u else u.Unlink(Backup)) && Backup !in u.files
  {
    ConfirmExactly(m, predecessor);
    var u := m.Confirm(predecessor).0;
    AsideUnlink(m);
    AsideUnlink(u);
    AsideJoin(m, u, u.Unlink(Backup));
  }

  /** How a rollback that has a backup goes: it stops before the restoring call and keeps the backup, or goes on after
      it from `m`. */
  lemma RollBackUnfolds(a: Store, tentative: File, predecessor: Option<Bytes>)
    requires predecessor.Some? && BytesAt(a.files, Backup) == predecessor
    ensures var f := a.Called().Called();
            var t := a.RollBack(tentative, predecessor).0;
            && BytesAt(f.files, Backup) == predecessor
            && (t == a.Called() || t == f || t == f.Called()
                || var m := f.Replace(Backup, Output);
                   && !f.Fault().Before? && a.Is(tentative).1 && a.Called().Fault().Clean? && Aside(m, t))
  {
    var f := a.Called().Called();
    AsideCall(a);
    AsideCall(a.Called());
    AsideCall(f);
    if !f.Fault().Before? { MovedKeeps(f.Replace(Backup, Output), predecessor); }
  }

  lemma RollBackKeeps(s: Store, r: Store, a: Store)
    requires Tentative(s, r, a)
    requires var t := a.RollBack(s.files[Staged], s.Copied()).0;
             s.Restores() ==> s.world.Quiet(s.RestoreAt() + 1, t.calls)
    ensures KeepsOn(a, a.RollBack(s.files[Staged], s.Copied()).0, s.Copied())
  {
    var kept := s.Copied();
    if kept.None? {
      AbsenceKeeps(s, a, s.files[Staged]);
    } else {
      var o, f := a.Called(), a.Called().Called();
      var t := a.RollBack(s.files[Staged], kept).0;
      RollBackUnfolds(a, s.files[Staged], kept);
      BackupCalled(a, kept);
      BackupCalled(o, kept);
      BackupCalled(f, kept);
      KeepsOnAgain(a, o, f, kept);
      KeepsOnAgain(a, f, f.Called(), kept);
      if !f.Fault().Before? && a.Is(s.files[Staged]).1 && o.Fault().Clean? && Aside(f.Replace(Backup, Output), t) {
        OwnedExactly(s, r, a);
        ClearStep(s.world, s.RollbackAt() + 1, s.RestoreAt());
        KeepsOnAgain(a, f, f.Called(), kept);
        MoveKeeps(a, f, t, kept);
      }
    }
  }

  lemma MoveKeeps(a: Store, f: Store, t: Store, kept: Option<Bytes>)
    requires KeepsOn(a, f.Called(), kept) && BytesAt(f.files, Backup) == kept && kept.Some? && !f.Fault().Before?
    requires Aside(f.Replace(Backup, Output), t) && f.world.Quiet(f.calls + 1, t.calls)
    ensures KeepsOn(a, t, kept)
  {
    var m := f.Replace(Backup, Output);
    AsideCall(f);
    OneState(f.Called(), m, kept);
    KeepsOnAgain(a, f.Called(), m, kept);
    KeepsOnAgain(a, m, t, kept);
  }

  /** Conservation: after a publishing replace that was not interrupted, the copied predecessor's bytes were at the
      output or in the backup in every state since the output was opened, up to the commit, which is the first
      deletion of a file - unless another writer replaces the restored output. */
  lemma PredecessorIsKept(s: Store, postHolds: bool)
    requires Backup !in s.files && s.FreshInodes() && s.Replaced()
    requires !s.Held(postHolds) && s.Restores() ==>
               s.world.Quiet(s.RestoreAt() + 1, s.Transaction(postHolds).0.calls)
    ensures Staged in Prepared(s).files
    ensures var (t, end) := s.Transaction(postHolds);
            if s.Held(postHolds) then
              var a := AtSettlement(s, postHolds);
              KeepsOn(Opened(s), a, s.Copied()) && (t, end) == a.Commit(s.Copied())
            else
              KeepsOn(Opened(s), t, s.Copied())
  {
    SettlesExactly(s, postHolds);
    SettlementKeeps(s, postHolds);
    if !s.Held(postHolds) {
      var a := AtSettlement(s, postHolds);
      RollBackKeeps(s, AfterReplace(s), a);
      KeepsOnAgain(Opened(s), a, s.Transaction(postHolds).0, s.Copied());
    }
  }

  /** A transaction that ends before the replace takes effect changes nothing about the output: without another writer
      every state has the predecessor. */
  lemma UnpublishedKeeps(s: Store, postHolds: bool)
    requires Backup !in s.files && s.FreshInodes() && !s.Replaced() && !s.Interrupted()
    ensures var (t, end) := s.Transaction(postHolds);
            && end == NotPublished && FileAt(t.files, Staged) == FileAt(s.files, Staged)
            && (s.world.Quiet(s.calls, t.calls) ==>
                  FileAt(t.files, Output) == FileAt(s.files, Output) && KeepsOn(s, t, BytesAt(s.files, Output)))
  {
    UnreplacedOutput(s, postHolds);
  }

  // ---- what is left behind ----------------------------------------------------------------------------------

  /** A backup survives its removal when the removing call has no effect. */
  lemma UnlinkedBackup(s: Store)
    ensures var t := s.Unlink(Backup);
            && t.world == s.world && t.calls == s.calls + 1
            && (Backup in t.files <==> Backup in s.files && s.Fault().Before?)
  {
    AsideCall(s);
  }

  lemma BackupCreated(s: Store, bytes: Bytes)
    requires Backup !in s.files
    ensures var t := s.Create(Backup, bytes);
            && t.world == s.world && t.calls == s.calls + 1 && (Backup in t.files <==> !s.Fault().Before?)
  {
    AsideCall(s);
  }

  lemma StillBackedUp(s: Store)
    ensures s.Called().world == s.world && s.Called().calls == s.calls + 1
    ensures Backup in s.Called().files <==> Backup in s.files
  {
    AsideCall(s);
  }

  lemma CleanedUp(s: Store)
    ensures var t := s.CleanUp();
            && t.world == s.world && t.calls == s.calls + (if Backup in s.files then 1 else 0)
            && (Backup in t.files <==> Backup in s.files && s.Fault().Before?)
  {
    UnlinkedBackup(s);
  }

  /** A partial copy is removed again: it stays only when the removing call, the last one, has no effect. */
  lemma PreserveCleansUp(s: Store, source: File)
    requires Backup !in s.files
    ensures var (t, copied) := s.Preserve(source);
            && s.calls < t.calls && t.world == s.world
            && (copied.Err? ==>
                  (Backup in t.files <==> !s.Fault().Before? && s.world.faults(t.calls - 1).Before?))
  {
    var s1 := s.Create(Backup, source.bytes);
    var s2 := s1.Called();
    var s3 := s2.Called();
    BackupCreated(s, source.bytes);
    StillBackedUp(s1);
    StillBackedUp(s2);
    StillBackedUp(s3);
    CleanedUp(s1);
    CleanedUp(s2);
    CleanedUp(s3);
    CleanedUp(s3.Called());
    PreserveEnds(s, source);
  }

  lemma CopyEnds(s: Store)
    ensures var o := s.Called();
            s.CopyPredecessor()
            == if !s.Fault().Clean? then (o, Err(()))
               else if Output !in o.files then (o, Ok(None))
               else o.Preserve(o.files[Output])
  {
  }

  /** A failed copy leaves a backup when it was written and the call that removes it has no effect. */
  lemma CopyCleansUp(s: Store)
    requires Backup !in s.files
    ensures var (t, copied) := s.CopyPredecessor();
            var written := s.Fault().Clean? && Output in s.Called().files && !s.world.faults(s.calls + 1).Before?;
            && s.calls < t.calls
            && (copied.Err? || Output !in s.Called().files ==>
                  (Backup in t.files <==> written && s.world.faults(t.calls - 1).Before?))
  {
    var o := s.Called();
    StillBackedUp(s);
    CopyEnds(s);
    if Output in o.files { PreserveCleansUp(o, o.files[Output]); }
  }

  /** The transaction got as far as to write the backup. */
  ghost predicate Writes(s: Store) {
    && Staged in s.files && s.world.Clear(s.calls, s.calls + 2) && s.Copied().Some?
    && !s.world.faults(s.calls + 2).Before?
  }

  /** The schedule leaves a backup behind, when the call ends after `last` calls. */
  ghost predicate LeavesBackup(s: Store, postHolds: bool, last: nat) {
    if s.Held(postHolds) then s.Copied().Some? && s.world.faults(s.ReplaceAt() + 3).Before?
    else if s.Replaced() then s.Copied().Some? && !s.Restores()
    else Writes(s) && 0 < last && s.world.faults(last - 1).Before?
  }

  /** The call that opens the output finds what is copied. */
  lemma OpenFinds(s: Store)
    ensures Output in s.Called().Called().files <==> s.Copied().Some?
  {
    OpenSees(s);
    AsideCall(s.Called());
  }

  lemma UnreachedLeaves(s: Store, postHolds: bool, t: Store)
    requires !s.Reached() && s.calls < t.calls
    requires Backup in t.files <==>
               && s.Fault().Clean? && Staged in s.files && s.world.faults(s.calls + 1).Clean? && s.Copied().Some?
               && !s.world.faults(s.calls + 2).Before? && s.world.faults(t.calls - 1).Before?
    ensures Backup in t.files <==> LeavesBackup(s, postHolds, t.calls)
  {
    TwoClear(s);
  }

  lemma UnreachedCopy(s: Store)
    requires Backup !in s.files && s.FreshInodes() && !s.Reached() && s.Fault().Clean? && Staged in s.files
    ensures var t := s.Called().CopyPredecessor().0;
            && s.calls < t.calls
            && (Backup in t.files <==>
                  && s.world.faults(s.calls + 1).Clean? && s.Copied().Some? && !s.world.faults(s.calls + 2).Before?
                  && s.world.faults(t.calls - 1).Before?)
  {
    UpToReplace(s);
    OpenFinds(s);
    StillBackedUp(s);
    CopyCleansUp(s.Called());
  }

  /** Before the replace is reached. */
  lemma UnreachedBackup(s: Store, postHolds: bool)
    requires Backup !in s.files && s.FreshInodes() && !s.Reached()
    ensures var t := s.Transaction(postHolds).0;
            && s.calls < t.calls
            && (Backup in t.files <==> LeavesBackup(s, postHolds, t.calls))
  {
    UnreachedEnds(s, postHolds);
    StillBackedUp(s);
    if s.Fault().Clean? && Staged in s.files { UnreachedCopy(s); }
    UnreachedLeaves(s, postHolds, s.Transaction(postHolds).0);
  }

  lemma TwoClear(s: Store)
    ensures s.world.Clear(s.calls, s.calls + 2) <==> s.Fault().Clean? && s.world.faults(s.calls + 1).Clean?
  {
    ClearStep(s.world, s.calls, s.calls + 2);
    ClearStep(s.world, s.calls + 1, s.calls + 2);
  }

  lemma UnreachedEnds(s: Store, postHolds: bool)
    requires Backup !in s.files && s.FreshInodes() && !s.Reached()
    ensures s.Transaction(postHolds).0
            == if s.Fault().Clean? && Staged in s.files then s.Called().CopyPredecessor().0 else s.Called()
  {
    AsideCall(s);
    UpToReplace(s);
  }

  lemma UnpublishedLeaves(s: Store, postHolds: bool, r: Store)
    requires s.Reached() && !s.Replaced() && r.world == s.world && r.calls == s.ReplaceAt() + 1
    requires BytesAt(r.files, Backup) == s.Copied() && (Writes(s) <==> s.Copied().Some?)
    ensures var t := if s.Copied().Some? then r.Unlink(Backup) else r;
            && s.calls < t.calls
            && (Backup in t.files <==> LeavesBackup(s, postHolds, t.calls))
  {
    UnlinkedBackup(r);
  }

  /** The replace was reached, and raised. */
  lemma UnpublishedBackup(s: Store, postHolds: bool)
    requires Backup !in s.files && s.FreshInodes() && s.Reached() && !s.Replaced()
    ensures var t := s.Transaction(postHolds).0;
            && s.calls < t.calls
            && (Backup in t.files <==> LeavesBackup(s, postHolds, t.calls))
  {
    ReachesReplace(s, postHolds);
    ReachedWrites(s);
    RaisedReplace(s, Prepared(s), postHolds);
    UnpublishedLeaves(s, postHolds, AfterReplace(s));
  }

  lemma RaisedReplace(s: Store, p: Store, postHolds: bool)
    requires Ready(s, p) && !p.Fault().Clean?
    ensures var r := p.Replace(Staged, Output);
            && r.world == s.world && r.calls == s.ReplaceAt() + 1 && BytesAt(r.files, Backup) == s.Copied()
            && p.Publish(s.files[Staged], s.Copied(), postHolds).0
               == if s.Copied().Some? then r.Unlink(Backup) else r
  {
    AsideCall(p);
    if p.Fault().Before? {
      ReplaceStays(s, p);
    } else {
      ReplaceSwaps(s, p);
    }
  }

  lemma ReachedWrites(s: Store)
    requires s.Reached()
    ensures Writes(s) <==> s.Copied().Some?
  {
    ReachedUnfolds(s);
    TwoCalls(s);
    ClearStep(s.world, s.calls + 2, s.calls + 6);
  }

  lemma CommittedBackup(s: Store, predecessor: Option<Bytes>)
    requires BytesAt(s.files, Backup) == predecessor
    ensures var (t, end) := s.Commit(predecessor);
            && s.calls < t.calls && FileAt(t.files, Staged) == FileAt(s.files, Staged) && !end.RollbackFailed?
            && (Backup in t.files <==> predecessor.Some? && s.Fault().Before?)
  {
    AsideCall(s);
    AsideUnlink(s);
    UnlinkedBackup(s);
    AsideCall(s.Unlink(Backup));
  }

  lemma ConfirmLeavesStaged(s: Store, predecessor: Option<Bytes>)
    ensures var t := s.Confirm(predecessor).0;
            t.world == s.world && FileAt(t.files, Staged) == FileAt(s.files, Staged)
  {
    TwoCalls(s);
  }

  lemma ReinstateLeavesStaged(s: Store, predecessor: Option<Bytes>)
    requires Staged !in s.files
    ensures Staged !in s.Reinstate(predecessor).0.files
  {
    AsideCall(s);
    if predecessor.None? {
      ConfirmLeavesStaged(s.Unlink(Output), predecessor);
    } else if s.Finds(Backup, predecessor).1 {
      var f := s.Called();
      AsideCall(f);
      ConfirmLeavesStaged(f.Replace(Backup, Output), predecessor);
    }
  }

  /** A rollback reports whether it leaves the backup. */
  lemma RollBackReports(a: Store, tentative: File, predecessor: Option<Bytes>)
    requires Staged !in a.files
    ensures var (t, end) := a.RollBack(tentative, predecessor);
            && Staged !in t.files
            && (end.RollbackFailed? ==> end.retained == (predecessor.Some? && Backup in t.files))
  {
    var u := a.Restore(tentative, predecessor).0;
    AsideCall(a);
    AsideCall(u);
    ReinstateLeavesStaged(a.Called(), predecessor);
    RestoreUnfolds(a, tentative, predecessor);
  }

  lemma HeldLeaves(s: Store, postHolds: bool, r: Store, a: Store)
    requires s.Held(postHolds) && Swapped(s, r) && Aside(r, a) && a.calls == s.ReplaceAt() + 3
    requires BytesAt(a.files, Backup) == s.Copied()
    ensures var (t, end) := a.Commit(s.Copied());
            && s.calls < t.calls && Staged !in t.files && !end.RollbackFailed?
            && (Backup in t.files <==> LeavesBackup(s, postHolds, t.calls))
  {
    CommittedBackup(a, s.Copied());
  }

  lemma HeldBackup(s: Store, postHolds: bool)
    requires Backup !in s.files && s.FreshInodes() && s.Held(postHolds)
    ensures var (t, end) := s.Transaction(postHolds);
            && s.calls < t.calls && Staged !in t.files && !end.RollbackFailed?
            && (Backup in t.files <==> LeavesBackup(s, postHolds, t.calls))
  {
    SettlesExactly(s, postHolds);
    HeldLeaves(s, postHolds, AfterReplace(s), AtSettlement(s, postHolds));
  }

  lemma RolledBackBackup(s: Store, postHolds: bool)
    requires Backup !in s.files && s.FreshInodes() && s.Replaced() && !s.Held(postHolds)
    ensures var (t, end) := s.Transaction(postHolds);
            && s.calls < t.calls && Staged !in t.files
            && (Backup in t.files <==> LeavesBackup(s, postHolds, t.calls))
            && (end.RollbackFailed? ==> end.retained == (Backup in t.files))
  {
    RolledBackExactly(s, postHolds);
    SettlesExactly(s, postHolds);
    RollBackReports(AtSettlement(s, postHolds), s.files[Staged], s.Copied());
  }

  /** A backup is left behind exactly as the schedule says: by a commit or a clean-up whose removing call had no effect,
      and by a rollback whose restoring call had none.  A failed rollback reports whether it is there, and the staged
      file is gone exactly when the replace took effect. */
  lemma BackupIsFinal(s: Store, postHolds: bool)
    requires Backup !in s.files && s.FreshInodes()
    ensures var (t, end) := s.Transaction(postHolds);
            && s.calls < t.calls && (Backup in t.files <==> LeavesBackup(s, postHolds, t.calls))
            && (end.RollbackFailed? ==> end.retained == (Backup in t.files))
            && (Staged in t.files <==> Staged in s.files && !s.Replaced() && !s.Interrupted())
  {
    if !s.Reached() {
      UnreachedBackup(s, postHolds);
      UnreplacedOutput(s, postHolds);
    } else if !s.Replaced() {
      UnpublishedBackup(s, postHolds);
      UnreplacedOutput(s, postHolds);
      if s.Interrupted() { InterruptedOutput(s, postHolds); }
    } else {
      if s.Held(postHolds) { HeldBackup(s, postHolds); } else { RolledBackBackup(s, postHolds); }
    }
  }

  // ---- other writers ---------------------------------------------------------------------------------------

  /** A writer that replaces the tentative output before the rollback checks it is never overwritten, and the backup is
      retained. */
  lemma EarlyWriterIsLeftAlone(s: Store, postHolds: bool)
    requires Backup !in s.files && s.FreshInodes() && s.Replaced() && !s.Held(postHolds)
    requires !s.world.Quiet(s.ReplaceAt() + 1, s.RollbackAt() + 1)
    ensures var (t, end) := s.Transaction(postHolds);
            && end == RollbackFailed(s.Copied().Some?) && BytesAt(t.files, Backup) == s.Copied()
            && BytesAt(t.files, Output) == s.world.Latest(s.ReplaceAt() + 1, t.calls, None)
  {
    RolledBackExactly(s, postHolds);
    var t := s.Transaction(postHolds).0;
    QuietJoin(s.world, s.ReplaceAt() + 1, s.RollbackAt() + 1, t.calls);
    LatestForgets(s.world, s.ReplaceAt() + 1, t.calls, BytesAt(s.files, Staged), None);
  }

  /** A writer between the ownership check and the restoring call loses its bytes exactly when that call takes
      effect. */
  lemma LateWriterIsOverwrittenIff(s: Store, postHolds: bool)
    requires Backup !in s.files && s.FreshInodes() && s.Replaced() && !s.Held(postHolds) && s.Owned()
    requires !s.world.Quiet(s.RollbackAt() + 1, s.RestoreAt() + 1)
    ensures var (t, end) := s.Transaction(postHolds);
            if s.Restores() then BytesAt(t.files, Output) == s.world.Latest(s.RestoreAt() + 1, t.calls, s.Copied())
            else
              && end == RollbackFailed(s.Copied().Some?)
              && BytesAt(t.files, Output) == s.world.Latest(s.ReplaceAt() + 1, t.calls, BytesAt(s.files, Staged))
  {
    RolledBackExactly(s, postHolds);
  }

  /** The last time the transaction looks at the output before it replaces it. */
  function CheckedAt(s: Store): nat {
    if s.Copied().Some? then s.calls + 4 else s.calls + 1
  }

  /** No call fails, and the other writer acts once, before call `i`. */
  ghost predicate OneWriter(s: Store, i: nat, bytes: Bytes) {
    && (forall n: nat :: s.world.faults(n).Clean?)
    && (forall n: nat :: s.world.writes(n) == if n == i then Some(bytes) else None)
  }

  lemma {:induction false} OneWrite(s: Store, i: nat, bytes: Bytes, from: nat, to: nat, base: Option<Bytes>)
    requires OneWriter(s, i, bytes)
    ensures s.world.Latest(from, to, base) == if from <= i < to then Some(bytes) else base
    ensures s.world.Quiet(from, to) <==> !(from <= i < to)
    ensures s.world.Clear(from, to)
  {
    if from < to { OneWrite(s, i, bytes, from, to - 1, base); }
    if from <= i < to { assert s.world.writes(i).Some?; }
  }

  lemma OneWriterUpToReplace(s: Store, i: nat, bytes: Bytes)
    requires OneWriter(s, i, bytes) && Staged in s.files && s.calls <= i
    ensures s.Copied() == if i < s.calls + 2 then Some(bytes) else BytesAt(s.files, Output)
    ensures s.Replaced() <==> s.Reached()
    ensures s.Reached() <==> !(s.Copied().Some? && s.calls + 2 <= i < s.calls + 5)
    ensures !s.Interrupted()
  {
    OneWrite(s, i, bytes, s.calls, s.calls + 2, BytesAt(s.files, Output));
    OneWrite(s, i, bytes, s.calls + 2, s.calls + 5, None);
    OneWrite(s, i, bytes, s.calls, s.ReplaceAt(), None);
  }

  lemma OneWriterRollBack(s: Store, i: nat, bytes: Bytes)
    requires OneWriter(s, i, bytes)
    ensures s.RollbackAt() == s.ReplaceAt() + 3
    ensures s.Restores() <==> s.Owned()
    ensures s.Owned() <==> !(s.ReplaceAt() < i <= s.RollbackAt())
    ensures s.ReadsBack() <==> !(s.RestoreAt() < i <= s.RestoreAt() + 2) || s.Copied() == Some(bytes)
    ensures s.world.Clear(s.RollbackAt() + 1, s.RestoreAt() + 3)
  {
    OneWrite(s, i, bytes, s.ReplaceAt() + 1, s.RollbackAt() + 1, None);
    OneWrite(s, i, bytes, s.RollbackAt() + 1, s.RestoreAt(), None);
    OneWrite(s, i, bytes, s.RollbackAt() + 1, s.RestoreAt() + 3, None);
    OneWrite(s, i, bytes, s.RestoreAt() + 1, s.RestoreAt() + 3, s.Copied());
  }

  lemma OneWriterFinal(s: Store, i: nat, bytes: Bytes, last: nat)
    requires OneWriter(s, i, bytes) && s.calls <= i < last
    ensures s.FinalOutput(false, last)
            == if s.Replaced() && s.Restores() then (if s.RestoreAt() < i then Some(bytes) else s.Copied())
               else if s.Replaced() || s.Interrupted() then
                 (if s.ReplaceAt() < i then Some(bytes) else BytesAt(s.files, Staged))
               else Some(bytes)
  {
    OneWrite(s, i, bytes, s.RestoreAt() + 1, last, s.Copied());
    OneWrite(s, i, bytes, s.ReplaceAt() + 1, last, BytesAt(s.files, Staged));
    OneWrite(s, i, bytes, s.calls, last, BytesAt(s.files, Output));
  }

  /** The output is replaced after the transaction last looked at it. */
  predicate ActsUnseen(s: Store, i: nat) {
    CheckedAt(s) < i <= s.ReplaceAt() || s.RollbackAt() < i <= s.RestoreAt()
  }

  /** A single writer, no fault, and a postcondition that refuses: the writer's bytes are gone exactly when it acts
      between the last look at the output and the call that replaces it, in the publication or in the rollback.  The
      call then ends as a rollback that restored what it copied. */
  lemma OneWriterIsOverwrittenIff(s: Store, i: nat, bytes: Bytes)
    requires Backup !in s.files && s.FreshInodes() && Staged in s.files && OneWriter(s, i, bytes)
    requires s.calls <= i < s.Transaction(false).0.calls && BytesAt(s.files, Output) != Some(bytes)
    ensures var (t, end) := s.Transaction(false);
            if ActsUnseen(s, i) then end == RolledBack && BytesAt(t.files, Output) == BytesAt(s.files, Output)
            else BytesAt(t.files, Output) == Some(bytes)
  {
    OutputIsFinal(s, false);
    OneWriterUpToReplace(s, i, bytes);
    OneWriterRollBack(s, i, bytes);
    OneWriterFinal(s, i, bytes, s.Transaction(false).0.calls);
    if ActsUnseen(s, i) { EndIsExact(s, false); }
  }

  // ---- the code --------------------------------------------------------------------------------------------

  class Disk {
    var files: Files
    var calls: nat
    var nextInode: nat
    ghost var past: seq<Files>
    const world: World

    constructor (files: Files, nextInode: nat, world: World)
      ensures State() == Store(world, files, 0, nextInode, [])
    {
      this.files, this.nextInode, this.world := files, nextInode, world;
      calls, past := 0, [];
    }

    ghost function State(): Store
      reads this
    {
      Store(world, files, calls, nextInode, past)
    }

    method SetFiles(next: Files)
      modifies this
      ensures State() == old(State()).With(next)
    {
      files, past := next, past + [next];
    }

    method WriteFresh(p: Path, bytes: Bytes)
      modifies this
      ensures State() == old(State()).Fresh(p, bytes)
    {
      SetFiles(files[p := File(nextInode, bytes)]);
      nextInode := nextInode + 1;
    }

    /** The other writer's turn, and how the next call goes. */
    method NextCall() returns (fault: Fault)
      modifies this
      ensures State() == old(State()).Called() && fault == old(State()).Fault()
    {
      fault := world.faults(calls);
      var written := world.writes(calls);
      if written.Some? { WriteFresh(Output, written.value); }
      calls := calls + 1;
    }

    method Check() returns (ok: bool)
      modifies this
      ensures (State(), ok) == old(State()).Check()
    {
      var fault := NextCall();
      ok := fault.Clean?;
    }

    method Look(p: Path) returns (r: Result<Option<File>, ()>)
      modifies this
      ensures (State(), r) == old(State()).Look(p)
    {
      var fault := NextCall();
      r := if fault.Clean? then Ok(if p in files then Some(files[p]) else None) else Err(());
    }

    method Finds(p: Path, bytes: Option<Bytes>) returns (ok: bool)
      modifies this
      ensures (State(), ok) == old(State()).Finds(p, bytes)
    {
      var found := Look(p);
      ok := found.Ok? && (if found.value.Some? then bytes == Some(found.value.value.bytes) else bytes == None);
    }

    /** Compares device, inode and content of the output. */
    method Is(file: File) returns (same: bool)
      modifies this
      ensures (State(), same) == old(State()).Is(file)
    {
      var found := Look(Output);
      same := found == Ok(Some(file));
    }

    method Replace(src: Path, dst: Path) returns (fault: Fault)
      requires src in files && src != Output
      modifies this
      ensures State() == old(State()).Replace(src, dst) && fault == old(State()).Fault()
    {
      fault := NextCall();
      if !fault.Before? { SetFiles((files - {src})[dst := files[src]]); }
    }

    method Unlink(p: Path) returns (fault: Fault)
      modifies this
      ensures State() == old(State()).Unlink(p) && fault == old(State()).Fault()
    {
      fault := NextCall();
      if !fault.Before? { SetFiles(files - {p}); }
    }

    method Create(p: Path, bytes: Bytes) returns (fault: Fault)
      modifies this
      ensures State() == old(State()).Create(p, bytes) && fault == old(State()).Fault()
    {
      fault := NextCall();
      if !fault.Before? { WriteFresh(p, bytes); }
    }
  }

  method CopyOutputPredecessor(disk: Disk) returns (r: Result<Option<Bytes>, ()>)
    modifies disk
    ensures (disk.State(), r) == old(disk.State()).CopyPredecessor()
  {
    var source := disk.Look(Output);
    if source.Err? { return Err(()); }
    if source.value.None? { return Ok(None); }
    r := PreserveOutput(disk, source.value.value);
  }

  /** Write the backup, check that the opened output did not change meanwhile, and drop the backup on failure. */
  method PreserveOutput(disk: Disk, source: File) returns (r: Result<Option<Bytes>, ()>)
    modifies disk
    ensures (disk.State(), r) == old(disk.State()).Preserve(source)
  {
    var created := disk.Create(Backup, source.bytes);
    if created.Clean? {
      var going := disk.Check();
      if going { going := disk.Is(source); }
      if going { going := disk.Check(); }
      if going { return Ok(Some(source.bytes)); }
    }
    if Backup in disk.files {
      var _ := disk.Unlink(Backup);
    }
    return Err(());
  }

  method RestoreOutputPredecessor(disk: Disk, tentative: File, predecessor: Option<Bytes>) returns (ok: bool)
    modifies disk
    ensures (disk.State(), ok) == old(disk.State()).Restore(tentative, predecessor)
  {
    ok := disk.Is(tentative);
    if !ok { return; }
    if predecessor.None? {
      var removed := disk.Unlink(Output);
      ok := removed.Clean?;
    } else {
      ok := disk.Finds(Backup, predecessor);
      if !ok { return; }
      var replaced := disk.Replace(Backup, Output);
      ok := replaced.Clean?;
    }
    if ok { ok := disk.Check(); }
    if ok { ok := disk.Finds(Output, predecessor); }
  }

  method RollBack(disk: Disk, tentative: File, predecessor: Option<Bytes>) returns (end: End)
    modifies disk
    ensures (disk.State(), end) == old(disk.State()).RollBack(tentative, predecessor)
  {
    var restored := RestoreOutputPredecessor(disk, tentative, predecessor);
    if restored { return RolledBack; }
    var retained := predecessor.Some? && Backup in disk.files;
    end := RollbackFailed(retained);
    if predecessor.Some? && !retained {
      var _ := disk.Unlink(Backup);
    }
  }

  method Commit(disk: Disk, predecessor: Option<Bytes>) returns (end: End)
    modifies disk
    ensures (disk.State(), end) == old(disk.State()).Commit(predecessor)
  {
    if predecessor.Some? {
      var removed := disk.Unlink(Backup);
      if !removed.Clean? { return PublishedThenFailed; }
    }
    var synced := disk.Check();
    end := if synced then Published else PublishedThenFailed;
  }

  method RunPostcondition(disk: Disk, postHolds: bool) returns (held: bool)
    modifies disk
    ensures (disk.State(), held) == old(disk.State()).Postcondition(postHolds)
  {
    held := disk.Check();
    if held {
      var returned := disk.Check();
      held := returned && postHolds;
    }
  }

  /** The source's `published` and `retain_backup` flags decide between commit, rollback and plain clean-up. */
  method PublishMediaTransaction(disk: Disk, postHolds: bool) returns (end: End)
    modifies disk
    ensures (disk.State(), end) == old(disk.State()).Transaction(postHolds)
  {
    var staged := disk.Look(Staged);
    if staged.Err? || staged.value.None? { return NotPublished; }
    var tentative := staged.value.value;
    ghost var begun := disk.State();
    var copied := CopyOutputPredecessor(disk);
    if copied.Err? { return NotPublished; }
    var predecessor := copied.value;
    StagedSurvivesCopy(begun);
    var replaced := disk.Replace(Staged, Output);
    var published := replaced.Clean?;
    if !published {
      if predecessor.Some? {
        var _ := disk.Unlink(Backup);
      }
      return NotPublished;
    }
    var held := RunPostcondition(disk, postHolds);
    if held {
      end := Commit(disk, predecessor);
    } else {
      end := RollBack(disk, tentative, predecessor);
    }
  }
}
