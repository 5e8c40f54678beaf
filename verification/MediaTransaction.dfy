/**
  The transaction that publishes the final render, as a function on the disk: replace the output, run the
  postcondition, roll back to the predecessor when anything fails.

  Every call may fail, before or after taking effect, and before any call a writer that takes no lock may replace the
  output, both as an arbitrary schedule says.  Each part of the transaction is described by conditions on the schedule.
 */
module MediaTransaction {
  import opened Common

  type Bytes = seq<int>

  datatype Path = Staged | Output | Backup

  datatype File = File(inode: nat, bytes: Bytes)

  type Files = map<Path, File>

  datatype Fault = Clean | Before | After

  datatype End =
    | NotPublished              // raised before the replace, or by it
    | Published
    | PublishedThenFailed       // raised after the postcondition had held
    | RolledBack                // raised, predecessor restored
    | RollbackFailed(retained: bool)

  function FileAt(files: Files, p: Path): Option<File> {
    if p in files then Some(files[p]) else None
  }

  function BytesAt(files: Files, p: Path): Option<Bytes> {
    if p in files then Some(files[p].bytes) else None
  }

  // ---- the schedule -------------------------------------------------------------------------------

  /** By call number: how the call goes, and what the other writer puts at the output just before it. */
  datatype World = World(faults: nat -> Fault, writes: nat -> Option<Bytes>) {
    /** The calls numbered `from` to `to - 1` succeed. */
    ghost predicate Clear(from: nat, to: nat) {
      forall i: nat | from <= i < to :: faults(i).Clean?
    }

    /** The other writer stays away from calls `from` to `to - 1`. */
    ghost predicate Quiet(from: nat, to: nat) {
      forall i: nat | from <= i < to :: writes(i).None?
    }

    /** What the output holds after calls `from` to `to - 1` if only the other writer changes it. */
    function Latest(from: nat, to: nat, base: Option<Bytes>): Option<Bytes> {
      if to <= from then base
      else if writes(to - 1).Some? then writes(to - 1)
      else Latest(from, to - 1, base)
    }
  }

  lemma ClearStep(w: World, from: nat, to: nat)
    requires from < to
    ensures w.Clear(from, to) <==> w.faults(from).Clean? && w.Clear(from + 1, to)
  {
  }

  lemma QuietJoin(w: World, from: nat, mid: nat, to: nat)
    requires from <= mid <= to
    ensures w.Quiet(from, to) <==> w.Quiet(from, mid) && w.Quiet(mid, to)
  {
  }

  lemma {:induction false} LatestJoin(w: World, from: nat, mid: nat, to: nat, base: Option<Bytes>)
    requires from <= mid <= to
    ensures w.Latest(from, to, base) == w.Latest(mid, to, w.Latest(from, mid, base))
  {
    if mid < to && w.writes(to - 1).None? {
      LatestJoin(w, from, mid, to - 1, base);
    }
  }

  lemma {:induction false} LatestQuiet(w: World, from: nat, to: nat, base: Option<Bytes>)
    requires w.Quiet(from, to)
    ensures w.Latest(from, to, base) == base
  {
    if from < to {
      QuietJoin(w, from, to - 1, to);
      LatestQuiet(w, from, to - 1, base);
    }
  }

  lemma {:induction false} LatestForgets(w: World, from: nat, to: nat, base: Option<Bytes>, other: Option<Bytes>)
    requires !w.Quiet(from, to)
    ensures w.Latest(from, to, base) == w.Latest(from, to, other)
  {
    if w.writes(to - 1).None? {
      QuietJoin(w, from, to - 1, to);
      LatestForgets(w, from, to - 1, base, other);
    }
  }

  // ---- the transaction, on values ---------------------------------------------------------------

  /** The disk, the schedule, and every state the files went through. */
  datatype Store = Store(world: World, files: Files, calls: nat, nextInode: nat, past: seq<Files>) {
    function Fault(): Fault {
      world.faults(calls)
    }

    function With(next: Files): Store {
      this.(files := next, past := past + [next])
    }

    function Fresh(p: Path, bytes: Bytes): Store {
      With(files[p := File(nextInode, bytes)]).(nextInode := nextInode + 1)
    }

    /** The other writer's turn. */
    function Disturbed(): Store {
      match world.writes(calls)
      case None => this
      case Some(bytes) => Fresh(Output, bytes)
    }

    /** The next call begins. */
    function Called(): Store {
      Disturbed().(calls := calls + 1)
    }

    /** A call without effect on the files: `fsync`, the postcondition. */
    function Check(): (Store, bool) {
      (Called(), Fault().Clean?)
    }

    /** Open, read and digest one real file. */
    function Look(p: Path): (Store, Result<Option<File>, ()>) {
      (Called(), if Fault().Clean? then Ok(FileAt(Called().files, p)) else Err(()))
    }

    /** Whether a read finds these bytes, or nothing. */
    function Finds(p: Path, bytes: Option<Bytes>): (Store, bool) {
      (Called(), Fault().Clean? && BytesAt(Called().files, p) == bytes)
    }

    /** Whether the output is still this file, by device, inode and content. */
    function Is(file: File): (Store, bool) {
      (Called(), Fault().Clean? && FileAt(Called().files, Output) == Some(file))
    }

    /** Atomic rename over the destination. */
    function Replace(src: Path, dst: Path): Store
      requires src in files && src != Output
    {
      var s := Called();
      if Fault().Before? then s else s.With((s.files - {src})[dst := s.files[src]])
    }

    function Unlink(p: Path): Store {
      var s := Called();
      if Fault().Before? then s else s.With(s.files - {p})
    }

    /** Create the file and write the bytes to it. */
    function Create(p: Path, bytes: Bytes): Store {
      var s := Called();
      if Fault().Before? then s else s.Fresh(p, bytes)
    }

    function CleanUp(): Store {
      if Backup in files then Unlink(Backup) else this
    }

    /** Copy the opened output to the backup, and check that the output is still the file that was opened;
        on failure the partial backup is removed again. */
    function Preserve(source: File): (Store, Result<Option<Bytes>, ()>) {
      var s1 := Create(Backup, source.bytes);
      if !Fault().Clean? then (s1.CleanUp(), Err(()))
      else
        var (s2, synced) := s1.Check();
        if !synced then (s2.CleanUp(), Err(()))
        else
          var (s3, same) := s2.Is(source);
          if !same then (s3.CleanUp(), Err(()))
          else
            var (s4, durable) := s3.Check();
            if !durable then (s4.CleanUp(), Err(())) else (s4, Ok(Some(source.bytes)))
    }

    function CopyPredecessor(): (Store, Result<Option<Bytes>, ()>) {
      var (s, source) := Look(Output);
      if source.Err? then (s, Err(()))
      else if source.value.None? then (s, Ok(None))
      else s.Preserve(source.value.value)
    }

    /** Make the rollback durable and read it back. */
    function Confirm(predecessor: Option<Bytes>): (Store, bool) {
      var (s, synced) := Check();
      if !synced then (s, false) else s.Finds(Output, predecessor)
    }

    /** From the ownership check on, with whatever the output holds then. */
    function Reinstate(predecessor: Option<Bytes>): (Store, bool) {
      if predecessor.None? then
        var s := Unlink(Output);
        if !Fault().Clean? then (s, false) else s.Confirm(predecessor)
      else
        var (s, intact) := Finds(Backup, predecessor);
        if !intact then (s, false) else s.MoveBack(predecessor)
    }

    function MoveBack(predecessor: Option<Bytes>): (Store, bool)
      requires Backup in files
    {
      var s := Replace(Backup, Output);
      if !Fault().Clean? then (s, false) else s.Confirm(predecessor)
    }

    /** Put the predecessor back, unless the output is no longer the tentative one. */
    function Restore(tentative: File, predecessor: Option<Bytes>): (Store, bool) {
      var (s, owned) := Is(tentative);
      if !owned then (s, false) else s.Reinstate(predecessor)
    }

    /** Restore; when that fails, keep the backup if it still exists. */
    function RollBack(tentative: File, predecessor: Option<Bytes>): (Store, End) {
      var (s, restored) := Restore(tentative, predecessor);
      if restored then (s, RolledBack)
      else
        var retained := predecessor.Some? && Backup in s.files;
        (if predecessor.Some? && !retained then s.Unlink(Backup) else s, RollbackFailed(retained))
    }

    /** Nothing is left to undo: drop the backup and make the directory durable. */
    function Commit(predecessor: Option<Bytes>): (Store, End) {
      var s := if predecessor.Some? then Unlink(Backup) else this;
      if predecessor.Some? && !Fault().Clean? then (s, PublishedThenFailed)
      else (s.Called(), if s.Fault().Clean? then Published else PublishedThenFailed)
    }

    /** Make the replace durable and run the postcondition. */
    function Postcondition(postHolds: bool): (Store, bool) {
      var (s, synced) := Check();
      if !synced then (s, false)
      else
        var (s', returned) := s.Check();
        (s', returned && postHolds)
    }

    /** From the publishing replace on. */
    function Publish(tentative: File, predecessor: Option<Bytes>, postHolds: bool): (Store, End)
      requires Staged in files
    {
      var s := Replace(Staged, Output);
      if !Fault().Clean? then (if predecessor.Some? then s.Unlink(Backup) else s, NotPublished)
      else s.Settle(tentative, predecessor, postHolds)
    }

    /** After the publishing replace. */
    function Settle(tentative: File, predecessor: Option<Bytes>, postHolds: bool): (Store, End) {
      var (s, held) := Postcondition(postHolds);
      if held then s.Commit(predecessor) else s.RollBack(tentative, predecessor)
    }

    function Transaction(postHolds: bool): (Store, End) {
      var (s1, tentative) := Look(Staged);
      if tentative.Err? || tentative.value.None? then (s1, NotPublished)
      else
        var (s2, copied) := s1.CopyPredecessor();
        StagedSurvivesCopy(s1);
        if copied.Err? then (s2, NotPublished) else s2.Publish(tentative.value.value, copied.value, postHolds)
    }

    // ---- conditions on the schedule ----

    ghost predicate FreshInodes() {
      forall p | p in files :: files[p].inode < nextInode
    }

    /** What the output holds when it is opened to be preserved. */
    function Copied(): Option<Bytes> {
      world.Latest(calls, calls + 2, BytesAt(files, Output))
    }

    /** The call number of the publishing replace: the staged file is read and the output opened, and an existing
        output is copied, made durable and checked. */
    function ReplaceAt(): nat {
      if Copied().Some? then calls + 6 else calls + 2
    }

    /** The publishing replace is reached: no call fails, and no other writer replaces the output while it is
        copied. */
    ghost predicate Reached() {
      && Staged in files && world.Clear(calls, ReplaceAt())
      && (Copied().Some? ==> world.Quiet(calls + 2, calls + 5))
    }

    /** The publishing replace took effect but raised. */
    ghost predicate Interrupted() {
      Reached() && world.faults(ReplaceAt()).After?
    }

    ghost predicate Replaced() {
      Reached() && world.faults(ReplaceAt()).Clean?
    }

    /** The postcondition held after the replace. */
    ghost predicate Held(postHolds: bool) {
      Replaced() && postHolds && world.Clear(ReplaceAt() + 1, ReplaceAt() + 3)
    }

    /** The call number of the rollback's ownership check. */
    function RollbackAt(): nat {
      if world.faults(ReplaceAt() + 1).Clean? then ReplaceAt() + 3 else ReplaceAt() + 2
    }

    /** The rollback's ownership check passes. */
    ghost predicate Owned() {
      world.faults(RollbackAt()).Clean? && world.Quiet(ReplaceAt() + 1, RollbackAt() + 1)
    }

    /** The call number of the restoring rename or unlink. */
    function RestoreAt(): nat {
      if Copied().Some? then RollbackAt() + 2 else RollbackAt() + 1
    }

    /** The restoring call is made and takes effect. */
    ghost predicate Restores() {
      Owned() && world.Clear(RollbackAt() + 1, RestoreAt()) && !world.faults(RestoreAt()).Before?
    }

    /** The read-back of the rollback sees the predecessor. */
    predicate ReadsBack() {
      world.Latest(RestoreAt() + 1, RestoreAt() + 3, Copied()) == Copied()
    }

    /** What the output holds when the call ends after `last` calls, read off the schedule. */
    ghost function FinalOutput(postHolds: bool, last: nat): Option<Bytes> {
      if Replaced() && !Held(postHolds) && Restores() then world.Latest(RestoreAt() + 1, last, Copied())
      else if Replaced() || Interrupted() then world.Latest(ReplaceAt() + 1, last, BytesAt(files, Staged))
      else world.Latest(calls, last, BytesAt(files, Output))
    }
  }

  lemma StagedSurvivesCopy(s: Store)
    ensures Staged in s.files ==> Staged in s.CopyPredecessor().0.files
  {
    CopyAside(s);
  }

  /** The predecessor's bytes exist at the output or in the backup. */
  ghost predicate Kept(files: Files, predecessor: Option<Bytes>) {
    predecessor.Some? ==> BytesAt(files, Output) == predecessor || BytesAt(files, Backup) == predecessor
  }

  ghost predicate KeptThroughout(states: seq<Files>, predecessor: Option<Bytes>) {
    forall i | 0 <= i < |states| :: Kept(states[i], predecessor)
  }

  /** `t` continues from `s` through states that all keep the predecessor. */
  ghost predicate KeepsOn(s: Store, t: Store, predecessor: Option<Bytes>) {
    && s.past <= t.past && KeptThroughout(t.past[|s.past|..], predecessor)
  }

  lemma KeepsOnAgain(s: Store, t: Store, u: Store, predecessor: Option<Bytes>)
    requires KeepsOn(s, t, predecessor) && KeepsOn(t, u, predecessor)
    ensures KeepsOn(s, u, predecessor)
  {
    var a, b, c := s.past, t.past, u.past;
    forall i | 0 <= i < |c[|a|..]|
      ensures Kept(c[|a|..][i], predecessor)
    {
      if |a| + i < |b| {
        assert c[|a|..][i] == b[|a|..][i];
      } else {
        assert c[|a|..][i] == c[|b|..][|a| + i - |b|];
      }
    }
  }

  lemma OneState(s: Store, t: Store, predecessor: Option<Bytes>)
    requires t.past == s.past + [t.files] && Kept(t.files, predecessor)
    ensures KeepsOn(s, t, predecessor)
  {
    assert t.past[|s.past|..] == [t.files];
  }

  // ---- calls that leave the output to the other writer ------------------------------------------------

  /** From `s` to `t` only the other writer changes the output. */
  ghost predicate Aside(s: Store, t: Store) {
    && t.world == s.world && s.calls <= t.calls && s.nextInode <= t.nextInode
    && (s.FreshInodes() ==> t.FreshInodes())
    && FileAt(t.files, Staged) == FileAt(s.files, Staged)
    && BytesAt(t.files, Output) == s.world.Latest(s.calls, t.calls, BytesAt(s.files, Output))
    && (if s.world.Quiet(s.calls, t.calls) then FileAt(t.files, Output) == FileAt(s.files, Output)
        else Output in t.files && s.nextInode <= t.files[Output].inode)
    && Steady(s, t)
  }

  /** Without another writer the output is the same in every state. */
  ghost predicate Steady(s: Store, t: Store) {
    && s.past <= t.past
    && (s.world.Quiet(s.calls, t.calls) ==> KeepsOn(s, t, BytesAt(s.files, Output)))
  }

  lemma AsideJoin(s: Store, t: Store, u: Store)
    requires Aside(s, t) && Aside(t, u)
    ensures Aside(s, u)
  {
    LatestJoin(s.world, s.calls, t.calls, u.calls, BytesAt(s.files, Output));
    QuietJoin(s.world, s.calls, t.calls, u.calls);
    if s.world.Quiet(s.calls, u.calls) { KeepsOnAgain(s, t, u, BytesAt(s.files, Output)); }
  }

  lemma AsideCall(s: Store)
    ensures Aside(s, s.Called())
    ensures FileAt(s.Called().files, Backup) == FileAt(s.files, Backup)
  {
    assert s.world.Latest(s.calls, s.calls, BytesAt(s.files, Output)) == BytesAt(s.files, Output);
    assert s.world.Quiet(s.calls, s.calls + 1) <==> s.world.writes(s.calls).None?;
  }

  /** Whatever happens to the backup leaves the output alone. */
  lemma AsideBackup(s: Store, t: Store)
    requires t.world == s.world && t.calls == s.calls && s.nextInode <= t.nextInode
    requires s.FreshInodes() ==> t.FreshInodes()
    requires t.files - {Backup} == s.files - {Backup} && t.past == s.past + [t.files]
    ensures Aside(s, t)
  {
    assert forall p | p != Backup :: p in t.files <==> p in t.files - {Backup};
    assert FileAt(t.files, Staged) == FileAt(t.files - {Backup}, Staged);
    assert FileAt(t.files, Output) == FileAt(t.files - {Backup}, Output) == FileAt(s.files, Output);
    OneState(s, t, BytesAt(s.files, Output));
  }

  lemma AsideUnlink(s: Store)
    ensures Aside(s, s.Unlink(Backup))
  {
    var c := s.Called();
    AsideCall(s);
    if !s.Fault().Before? {
      AsideBackup(c, c.With(c.files - {Backup}));
      AsideJoin(s, c, c.With(c.files - {Backup}));
    }
  }

  lemma AsideCreate(s: Store, bytes: Bytes)
    ensures Aside(s, s.Create(Backup, bytes))
  {
    var c := s.Called();
    AsideCall(s);
    if !s.Fault().Before? {
      assert c.Fresh(Backup, bytes).files - {Backup} == c.files - {Backup};
      AsideBackup(c, c.Fresh(Backup, bytes));
      AsideJoin(s, c, c.Fresh(Backup, bytes));
    }
  }

  lemma AsideSelf(s: Store)
    ensures Aside(s, s)
  {
  }

  lemma AsideCleanUp(s: Store, t: Store)
    requires Aside(s, t)
    ensures Aside(s, t.CleanUp())
  {
    AsideUnlink(t);
    if Backup in t.files { AsideJoin(s, t, t.Unlink(Backup)); }
  }

  lemma AsideNext(s: Store, t: Store)
    requires Aside(s, t)
    ensures Aside(s, t.Called()) && Aside(s, t.Called().CleanUp())
  {
    AsideCall(t);
    AsideJoin(s, t, t.Called());
    AsideCleanUp(s, t.Called());
  }

  lemma PreserveAside(s: Store, source: File)
    ensures Aside(s, s.Preserve(source).0)
  {
    var s1 := s.Create(Backup, source.bytes);
    var s2 := s1.Called();
    var s3 := s2.Called();
    AsideCreate(s, source.bytes);
    AsideCleanUp(s, s1);
    AsideNext(s, s1);
    AsideNext(s, s2);
    AsideNext(s, s3);
    PreserveEnds(s, source);
  }

  lemma PreserveEnds(s: Store, source: File)
    ensures var s1 := s.Create(Backup, source.bytes);
            var s2 := s1.Called();
            var s3 := s2.Called();
            s.Preserve(source)
            == if !s.Fault().Clean? then (s1.CleanUp(), Err(()))
               else if !s1.Fault().Clean? then (s2.CleanUp(), Err(()))
               else if !s2.Is(source).1 then (s3.CleanUp(), Err(()))
               else if !s3.Fault().Clean? then (s3.Called().CleanUp(), Err(()))
               else (s3.Called(), Ok(Some(source.bytes)))
  {
  }

  lemma CopyAside(s: Store)
    ensures Aside(s, s.CopyPredecessor().0)
  {
    AsideCall(s);
    var (t, source) := s.Look(Output);
    if source.Ok? && source.value.Some? {
      PreserveAside(t, source.value.value);
      AsideJoin(s, t, s.CopyPredecessor().0);
    }
  }

  // ---- up to the replace ------------------------------------------------------------------------------

  lemma CreateLeaves(s: Store, bytes: Bytes)
    ensures var t := s.Create(Backup, bytes);
            && t.calls == s.calls + 1 && t.world == s.world
            && (s.Fault().Clean? ==> BytesAt(t.files, Backup) == Some(bytes))
  {
  }

  /** The check of the copied file sees every writer since it was opened. */
  lemma IsUndisturbed(s: Store, t: Store, file: File)
    requires Aside(s, t) && s.FreshInodes() && FileAt(s.files, Output) == Some(file)
    ensures t.Is(file).1 <==> t.Fault().Clean? && s.world.Quiet(s.calls, t.calls + 1)
  {
    AsideCall(t);
    AsideJoin(s, t, t.Called());
  }

  lemma FourClear(w: World, n: nat)
    ensures w.Clear(n, n + 4)
            <==> w.faults(n).Clean? && w.faults(n + 1).Clean? && w.faults(n + 2).Clean? && w.faults(n + 3).Clean?
  {
    ClearStep(w, n, n + 4);
    ClearStep(w, n + 1, n + 4);
    ClearStep(w, n + 2, n + 4);
    ClearStep(w, n + 3, n + 4);
  }

  /** A copy succeeds exactly when no call fails and no writer replaces the output while it is copied. */
  lemma PreserveExactly(s: Store, source: File)
    requires s.FreshInodes() && FileAt(s.files, Output) == Some(source)
    ensures var (t, copied) := s.Preserve(source);
            && (copied.Ok? <==> s.world.Clear(s.calls, s.calls + 4) && s.world.Quiet(s.calls, s.calls + 3))
            && (copied.Ok? ==>
                  copied.value == Some(source.bytes) && t.calls == s.calls + 4
                  && BytesAt(t.files, Backup) == Some(source.bytes))
  {
    var s1 := s.Create(Backup, source.bytes);
    FourClear(s.world, s.calls);
    PreserveEnds(s, source);
    PreserveLeaves(s, source);
    AsideCreate(s, source.bytes);
    AsideNext(s, s1);
    IsUndisturbed(s, s1.Called(), source);
  }

  lemma PreserveLeaves(s: Store, source: File)
    ensures var s1 := s.Create(Backup, source.bytes);
            var t := s1.Called().Called().Called();
            && s1.calls == s.calls + 1 && s1.world == s.world
            && t.calls == s.calls + 4 && t.world == s.world
            && (s.Fault().Clean? ==> BytesAt(t.files, Backup) == Some(source.bytes))
  {
    CreateLeaves(s, source.bytes);
    var t := s.Create(Backup, source.bytes);
    AsideCall(t);
    AsideCall(t.Called());
    AsideCall(t.Called().Called());
  }

  /** The predecessor is copied exactly when the output can be opened and what is there is preserved. */
  lemma CopyExactly(s: Store)
    requires s.FreshInodes() && Backup !in s.files
    ensures var (t, copied) := s.CopyPredecessor();
            var seen := s.world.Latest(s.calls, s.calls + 1, BytesAt(s.files, Output));
            && (copied.Ok? <==>
                  s.Fault().Clean?
                  && (seen.Some? ==>
                        s.world.Clear(s.calls + 1, s.calls + 5) && s.world.Quiet(s.calls + 1, s.calls + 4)))
            && (copied.Ok? ==>
                  copied.value == seen && t.calls == s.calls + (if seen.Some? then 5 else 1)
                  && BytesAt(t.files, Backup) == seen)
  {
    AsideCall(s);
    var (t, source) := s.Look(Output);
    if source.Ok? && source.value.Some? {
      PreserveExactly(t, source.value.value);
    }
  }

  /** The disk when the publishing replace is called. */
  function Prepared(s: Store): Store {
    s.Called().CopyPredecessor().0
  }

  /** What the transaction works with from the replace on: the staged file in place, the predecessor in the backup. */
  ghost predicate Ready(s: Store, p: Store) {
    && Staged in s.files && Aside(s, p) && p.FreshInodes() && p.calls == s.ReplaceAt()
    && FileAt(p.files, Staged) == Some(s.files[Staged]) && BytesAt(p.files, Backup) == s.Copied()
  }

  lemma OpenSees(s: Store)
    ensures s.world.Latest(s.calls + 1, s.calls + 2, BytesAt(s.Called().files, Output)) == s.Copied()
  {
    AsideCall(s);
    LatestJoin(s.world, s.calls, s.calls + 1, s.calls + 2, BytesAt(s.files, Output));
  }

  lemma ReachedUnfolds(s: Store)
    ensures s.Reached() <==>
              && Staged in s.files && s.Fault().Clean? && s.Called().Fault().Clean?
              && (s.Copied().Some? ==>
                    s.world.Clear(s.calls + 2, s.calls + 6) && s.world.Quiet(s.calls + 2, s.calls + 5))
  {
    ClearStep(s.world, s.calls, s.ReplaceAt());
    ClearStep(s.world, s.calls + 1, s.ReplaceAt());
  }

  /** The first calls either lead to the replace or end the transaction. */
  lemma UpToReplace(s: Store)
    requires Backup !in s.files && s.FreshInodes()
    ensures s.Reached() <==> s.Fault().Clean? && Staged in s.files && s.Called().CopyPredecessor().1.Ok?
    ensures s.Reached() ==>
              && s.Called().CopyPredecessor().1 == Ok(s.Copied())
              && Prepared(s).calls == s.ReplaceAt() && BytesAt(Prepared(s).files, Backup) == s.Copied()
  {
    AsideCall(s);
    OpenSees(s);
    ReachedUnfolds(s);
    CopyExactly(s.Called());
  }

  lemma PreparedAside(s: Store)
    ensures Aside(s, Prepared(s))
  {
    AsideCall(s);
    CopyAside(s.Called());
    AsideJoin(s, s.Called(), Prepared(s));
  }

  lemma ReachesReplace(s: Store, postHolds: bool)
    requires Backup !in s.files && s.FreshInodes() && s.Reached()
    ensures Ready(s, Prepared(s))
    ensures s.Transaction(postHolds) == Prepared(s).Publish(s.files[Staged], s.Copied(), postHolds)
  {
    UpToReplace(s);
    PreparedAside(s);
    AsideCall(s);
  }

  lemma EndsBeforeReplace(s: Store, postHolds: bool)
    requires Backup !in s.files && s.FreshInodes() && !s.Reached()
    ensures var (t, end) := s.Transaction(postHolds);
            end == NotPublished && Aside(s, t)
  {
    UpToReplace(s);
    PreparedAside(s);
    AsideCall(s);
  }

  // ---- the replace ---------------------------------------------------------------------------------------

  /** `r` follows the publishing replace, which took effect. */
  ghost predicate Swapped(s: Store, r: Store) {
    && Staged in s.files && r.world == s.world && r.calls == s.ReplaceAt() + 1
    && r.FreshInodes() && FileAt(r.files, Output) == Some(s.files[Staged])
    && Staged !in r.files && BytesAt(r.files, Backup) == s.Copied()
  }

  lemma ReplaceSwaps(s: Store, p: Store)
    requires Ready(s, p) && !p.Fault().Before?
    ensures Swapped(s, p.Replace(Staged, Output))
  {
    AsideCall(p);
  }

  lemma ReplaceStays(s: Store, p: Store)
    requires Ready(s, p) && p.Fault().Before?
    ensures p.Replace(Staged, Output) == p.Called()
    ensures Aside(s, p.Called()) && Aside(s, p.Called().Unlink(Backup))
  {
    AsideNext(s, p);
    AsideUnlink(p.Called());
    AsideJoin(s, p.Called(), p.Called().Unlink(Backup));
  }

  /** The disk after the publishing replace. */
  function AfterReplace(s: Store): Store
    requires Staged in Prepared(s).files
  {
    Prepared(s).Replace(Staged, Output)
  }

  lemma SettlesAfterReplace(s: Store, postHolds: bool)
    requires Backup !in s.files && s.FreshInodes() && s.Replaced()
    ensures Staged in Prepared(s).files && Swapped(s, AfterReplace(s))
    ensures s.Transaction(postHolds) == AfterReplace(s).Settle(s.files[Staged], s.Copied(), postHolds)
  {
    ReachesReplace(s, postHolds);
    ReplaceSwaps(s, Prepared(s));
  }

  // ---- after the replace ---------------------------------------------------------------------------------

  lemma TwoCalls(s: Store)
    ensures var t := s.Called().Called();
            && Aside(s, s.Called()) && Aside(s, t) && t.calls == s.calls + 2
            && FileAt(s.Called().files, Backup) == FileAt(s.files, Backup) == FileAt(t.files, Backup)
    ensures s.Fault().Clean? && s.Called().Fault().Clean? <==> s.world.Clear(s.calls, s.calls + 2)
  {
    AsideCall(s);
    AsideCall(s.Called());
    AsideJoin(s, s.Called(), s.Called().Called());
    ClearStep(s.world, s.calls, s.calls + 2);
    ClearStep(s.world, s.calls + 1, s.calls + 2);
  }

  lemma PostconditionExactly(s: Store, postHolds: bool)
    ensures var (t, held) := s.Postcondition(postHolds);
            && Aside(s, t) && FileAt(t.files, Backup) == FileAt(s.files, Backup)
            && (held <==> postHolds && s.world.Clear(s.calls, s.calls + 2))
            && t.calls == s.calls + if s.Fault().Clean? then 2 else 1
  {
    TwoCalls(s);
  }

  /** Commit leaves the output alone and reports success exactly when its calls succeed. */
  lemma CommitKeepsOutput(s: Store, predecessor: Option<Bytes>)
    requires BytesAt(s.files, Backup) == predecessor
    ensures var (t, end) := s.Commit(predecessor);
            var last := s.calls + if predecessor.Some? then 2 else 1;
            && Aside(s, t) && (end.Published? || end.PublishedThenFailed?)
            && (end.Published? <==> s.world.Clear(s.calls, last))
            && (end.Published? ==> t.calls == last && Backup !in t.files)
  {
    var w, n := s.world, s.calls;
    AsideCall(s);
    ClearStep(w, n, n + 1);
    if predecessor.Some? {
      var u := s.Unlink(Backup);
      AsideUnlink(s);
      AsideCall(u);
      AsideJoin(s, u, u.Called());
      ClearStep(w, n, n + 2);
      ClearStep(w, n + 1, n + 2);
    }
  }

  lemma ConfirmExactly(s: Store, predecessor: Option<Bytes>)
    requires BytesAt(s.files, Output) == predecessor && Backup !in s.files
    ensures var (t, ok) := s.Confirm(predecessor);
            && Aside(s, t) && Backup !in t.files
            && (ok <==> s.world.Clear(s.calls, s.calls + 2)
                        && s.world.Latest(s.calls, s.calls + 2, predecessor) == predecessor)
            && (ok ==> t.calls == s.calls + 2)
  {
    TwoCalls(s);
  }

  /** The outcome of a rollback on an owned output, by the number `at` of its restoring call: that call is made and
      takes effect, or the output is left to the other writer. */
  ghost predicate Reinstated(s: Store, predecessor: Option<Bytes>, at: nat, t: Store, ok: bool) {
    && (ok <==> s.world.Clear(s.calls, at + 3) && s.world.Latest(at + 1, at + 3, predecessor) == predecessor)
    && (ok ==> t.calls == at + 3)
    && if s.world.Clear(s.calls, at) && !s.world.faults(at).Before?
       then PutBack(s.world, predecessor, at, t)
       else Aside(s, t) && BytesAt(t.files, Backup) == predecessor
  }

  /** The call `at` put the predecessor back. */
  ghost predicate PutBack(w: World, predecessor: Option<Bytes>, at: nat, t: Store) {
    && t.world == w && at < t.calls && Backup !in t.files
    && BytesAt(t.files, Output) == w.Latest(at + 1, t.calls, predecessor)
  }

  /** The call `at` was the restoring one, and gave `s`. */
  lemma ConfirmPutBack(s: Store, predecessor: Option<Bytes>, at: nat)
    requires BytesAt(s.files, Output) == predecessor && Backup !in s.files && s.calls == at + 1
    ensures var (t, ok) := s.Confirm(predecessor);
            && PutBack(s.world, predecessor, at, t)
            && (ok <==> s.world.Clear(at + 1, at + 3) && s.world.Latest(at + 1, at + 3, predecessor) == predecessor)
            && (ok ==> t.calls == at + 3)
  {
    ConfirmExactly(s, predecessor);
  }

  lemma UnlinkLeaves(s: Store)
    requires Backup !in s.files
    ensures var t := s.Unlink(Output);
            && t.world == s.world && t.calls == s.calls + 1
            && if s.Fault().Before? then t == s.Called() else BytesAt(t.files, Output) == None && Backup !in t.files
    ensures s.Reinstate(None)
            == if s.Fault().Clean? then s.Unlink(Output).Confirm(None) else (s.Unlink(Output), false)
  {
    AsideCall(s);
  }

  lemma ReinstateAbsence(s: Store)
    requires Backup !in s.files
    ensures var (t, ok) := s.Reinstate(None); Reinstated(s, None, s.calls, t, ok)
  {
    AsideCall(s);
    UnlinkLeaves(s);
    ClearStep(s.world, s.calls, s.calls + 3);
    if !s.Fault().Before? {
      ConfirmPutBack(s.Unlink(Output), None, s.calls);
    }
  }

  lemma MoveBackExactly(s: Store, predecessor: Option<Bytes>)
    requires predecessor.Some? && BytesAt(s.files, Backup) == predecessor
    ensures var (t, ok) := s.MoveBack(predecessor);
            && (ok <==> s.world.Clear(s.calls, s.calls + 3)
                        && s.world.Latest(s.calls + 1, s.calls + 3, predecessor) == predecessor)
            && (ok ==> t.calls == s.calls + 3)
            && if s.Fault().Before? then t == s.Called() else PutBack(s.world, predecessor, s.calls, t)
  {
    AsideCall(s);
    ClearStep(s.world, s.calls, s.calls + 3);
    if !s.Fault().Before? {
      ConfirmPutBack(s.Replace(Backup, Output), predecessor, s.calls);
    }
  }

  lemma ReinstateUnfolds(s: Store, predecessor: Option<Bytes>)
    requires predecessor.Some? && BytesAt(s.files, Backup) == predecessor
    ensures BytesAt(s.Called().files, Backup) == predecessor
    ensures s.Reinstate(predecessor)
            == if s.Fault().Clean? then s.Called().MoveBack(predecessor) else (s.Called(), false)
  {
    AsideCall(s);
  }

  lemma ReinstateBackup(s: Store, predecessor: Option<Bytes>)
    requires predecessor.Some? && BytesAt(s.files, Backup) == predecessor
    ensures var (t, ok) := s.Reinstate(predecessor); Reinstated(s, predecessor, s.calls + 1, t, ok)
  {
    ReinstateUnfolds(s, predecessor);
    TwoCalls(s);
    ClearStep(s.world, s.calls, s.calls + 4);
    ClearStep(s.world, s.calls, s.calls + 1);
    if s.Fault().Clean? {
      var c := s.Called();
      MoveBackExactly(c, predecessor);
      var (t, ok) := c.MoveBack(predecessor);
      MovedBack(s, c, predecessor, t, ok);
    }
  }

  lemma MovedBack(s: Store, c: Store, predecessor: Option<Bytes>, t: Store, ok: bool)
    requires c.world == s.world && c.calls == s.calls + 1 && s.Fault().Clean?
    requires Aside(s, c.Called()) && BytesAt(c.Called().files, Backup) == predecessor
    requires ok <==> s.world.Clear(c.calls, c.calls + 3)
                     && s.world.Latest(c.calls + 1, c.calls + 3, predecessor) == predecessor
    requires ok ==> t.calls == c.calls + 3
    requires if c.Fault().Before? then t == c.Called() else PutBack(s.world, predecessor, c.calls, t)
    ensures Reinstated(s, predecessor, s.calls + 1, t, ok)
  {
    ClearStep(s.world, s.calls, s.calls + 4);
    ClearStep(s.world, s.calls, s.calls + 1);
  }

  /** What a rollback finds: since the replace at `r` only the other writer changed the output. */
  ghost predicate Tentative(s: Store, r: Store, a: Store) {
    && Swapped(s, r) && Aside(r, a) && a.calls == s.RollbackAt() && BytesAt(a.files, Backup) == s.Copied()
  }

  /** The tentative output, or what other writers put over it, was left alone, and the backup kept. */
  ghost predicate LeftAlone(s: Store, t: Store) {
    && s.RollbackAt() < t.calls
    && BytesAt(t.files, Output) == s.world.Latest(s.ReplaceAt() + 1, t.calls, BytesAt(s.files, Staged))
    && BytesAt(t.files, Backup) == s.Copied()
  }

  lemma OwnedExactly(s: Store, r: Store, a: Store)
    requires Tentative(s, r, a)
    ensures a.Is(s.files[Staged]).1 <==> s.Owned()
    ensures Aside(r, a.Called()) && BytesAt(a.Called().files, Backup) == s.Copied()
  {
    AsideCall(a);
    AsideJoin(r, a, a.Called());
    IsUndisturbed(r, a, s.files[Staged]);
  }

  lemma AsideLeavesAlone(s: Store, r: Store, t: Store)
    requires Swapped(s, r) && Aside(r, t) && BytesAt(t.files, Backup) == s.Copied() && s.RollbackAt() < t.calls
    ensures LeftAlone(s, t)
  {
  }

  /** With a backup, it is read before it is moved back. */
  function RestoringCall(s: Store, predecessor: Option<Bytes>): nat {
    if predecessor.Some? then s.calls + 1 else s.calls
  }

  lemma ReinstateExactly(s: Store, predecessor: Option<Bytes>)
    requires BytesAt(s.files, Backup) == predecessor
    ensures var (t, ok) := s.Reinstate(predecessor);
            Reinstated(s, predecessor, RestoringCall(s, predecessor), t, ok)
  {
    if predecessor.None? { ReinstateAbsence(s); } else { ReinstateBackup(s, predecessor); }
  }

  /** How a rollback leaves the disk, read off the schedule: it returns when its calls succeed on an owned output and
      the read-back sees the predecessor; otherwise the backup is left unless the restoring call took effect. */
  ghost predicate RestoreOutcome(s: Store, t: Store, ok: bool) {
    && (ok <==> s.Owned() && s.world.Clear(s.RollbackAt() + 1, s.RestoreAt() + 3) && s.ReadsBack())
    && (ok ==> t.calls == s.RestoreAt() + 3)
    && if s.Restores() then PutBack(s.world, s.Copied(), s.RestoreAt(), t) else LeftAlone(s, t)
  }

  lemma RestoreOwned(s: Store, r: Store, o: Store, t: Store, ok: bool)
    requires Swapped(s, r) && Aside(r, o) && o.calls == s.RollbackAt() + 1
    requires s.Owned() && Reinstated(o, s.Copied(), RestoringCall(o, s.Copied()), t, ok)
    ensures RestoreOutcome(s, t, ok)
  {
    if !s.Restores() {
      AsideJoin(r, o, t);
      AsideLeavesAlone(s, r, t);
    }
  }

  lemma RestoreForeign(s: Store, r: Store, o: Store)
    requires Swapped(s, r) && Aside(r, o) && o.calls == s.RollbackAt() + 1 && BytesAt(o.files, Backup) == s.Copied()
    requires !s.Owned()
    ensures RestoreOutcome(s, o, false)
  {
    AsideLeavesAlone(s, r, o);
  }

  lemma RestoreUnfolds(a: Store, tentative: File, predecessor: Option<Bytes>)
    ensures a.Restore(tentative, predecessor)
            == if a.Is(tentative).1 then a.Called().Reinstate(predecessor) else (a.Called(), false)
  {
  }

  lemma RestoreExactly(s: Store, r: Store, a: Store)
    requires Tentative(s, r, a)
    ensures var (t, ok) := a.Restore(s.files[Staged], s.Copied()); RestoreOutcome(s, t, ok)
  {
    var o := a.Called();
    OwnedExactly(s, r, a);
    RestoreUnfolds(a, s.files[Staged], s.Copied());
    if s.Owned() {
      ReinstateExactly(o, s.Copied());
      RestoreOwned(s, r, o, o.Reinstate(s.Copied()).0, o.Reinstate(s.Copied()).1);
    } else {
      RestoreForeign(s, r, o);
    }
  }

  lemma RollBackExactly(s: Store, r: Store, a: Store)
    requires Tentative(s, r, a)
    ensures var (t, end) := a.RollBack(s.files[Staged], s.Copied());
            && (if s.Restores() then PutBack(s.world, s.Copied(), s.RestoreAt(), t)
                else LeftAlone(s, t) && end == RollbackFailed(s.Copied().Some?))
            && (end.RolledBack? || end.RollbackFailed?)
            && (end.RolledBack? <==>
                  s.Owned() && s.world.Clear(s.RollbackAt() + 1, s.RestoreAt() + 3) && s.ReadsBack())
            && (end.RolledBack? ==> t.calls == s.RestoreAt() + 3)
  {
    RestoreExactly(s, r, a);
    if s.Restores() { UnlinkStaysPutBack(s, a.Restore(s.files[Staged], s.Copied()).0); }
  }

  lemma UnlinkStaysPutBack(s: Store, u: Store)
    requires PutBack(s.world, s.Copied(), s.RestoreAt(), u)
    ensures PutBack(s.world, s.Copied(), s.RestoreAt(), u.Unlink(Backup))
  {
    AsideUnlink(u);
    LatestJoin(s.world, s.RestoreAt() + 1, u.calls, u.Unlink(Backup).calls, s.Copied());
  }

  /** The disk at the rollback, when there is one, and at commit. */
  function AtSettlement(s: Store, postHolds: bool): Store
    requires Staged in Prepared(s).files
  {
    AfterReplace(s).Postcondition(postHolds).0
  }

  lemma SettlementExactly(s: Store, r: Store, postHolds: bool)
    requires Swapped(s, r) && s.Replaced()
    ensures var (a, held) := r.Postcondition(postHolds);
            && Aside(r, a) && BytesAt(a.files, Backup) == s.Copied() && (held <==> s.Held(postHolds))
            && a.calls == if held then s.ReplaceAt() + 3 else s.RollbackAt()
  {
    PostconditionExactly(r, postHolds);
    ClearStep(s.world, s.ReplaceAt() + 1, s.ReplaceAt() + 3);
  }

  /** After the replace: commit exactly when the postcondition held, else roll back. */
  lemma SettlesExactly(s: Store, postHolds: bool)
    requires Backup !in s.files && s.FreshInodes() && s.Replaced()
    ensures Staged in Prepared(s).files && Swapped(s, AfterReplace(s))
    ensures var a := AtSettlement(s, postHolds);
            && Aside(AfterReplace(s), a) && BytesAt(a.files, Backup) == s.Copied()
            && (if s.Held(postHolds) then
                  a.calls == s.ReplaceAt() + 3 && s.Transaction(postHolds) == a.Commit(s.Copied())
                else
                  && Tentative(s, AfterReplace(s), a)
                  && s.Transaction(postHolds) == a.RollBack(s.files[Staged], s.Copied()))
  {
    SettlesAfterReplace(s, postHolds);
    SettlementExactly(s, AfterReplace(s), postHolds);
  }
}
