/**
  Capturing the replay scripts of an accepted chain while other processes may write to the shot.

  A digest is taken to be injective, so it is represented by the bytes it was taken of.  `world` gives
  the shot's files as each read finds them; nothing relates one read to the next.
 */
module ReplaySnapshot {
  import opened Common

  type Bytes = seq<int>

  datatype Digest = Sha256(of: Bytes)

  datatype Script = Script(path: string, digest: Digest)

  /** One layer of the accepted chain: its composed script and those of its units. */
  datatype Layer = Layer(passed: bool, script: Script, units: seq<Script>)

  datatype Failure = NotAccepted | ConflictingDigests | DuplicateScripts | Missing | Changed

  // ---- the scripts a chain expects ------------------------------------------------------------

  function LayerScripts(l: Layer): seq<Script> {
    [l.script] + l.units
  }

  function ChainScripts(chain: seq<Layer>): seq<Script> {
    if chain == [] then [] else ChainScripts(chain[..|chain| - 1]) + LayerScripts(chain[|chain| - 1])
  }

  ghost predicate Agreeing(scripts: seq<Script>) {
    forall a, b | a in scripts && b in scripts && a.path == b.path :: a.digest == b.digest
  }

  ghost predicate AllPassed(chain: seq<Layer>) {
    forall l | l in chain :: l.passed
  }

  function ReplayPaths(chain: seq<Layer>): seq<string> {
    seq(|chain|, i requires 0 <= i < |chain| => chain[i].script.path)
  }

  ghost predicate Sealable(chain: seq<Layer>) {
    AllPassed(chain) && Agreeing(ChainScripts(chain)) && Distinct(ReplayPaths(chain))
  }

  /** A map that records exactly the given scripts, and its keys in insertion order. */
  ghost predicate Records(expected: map<string, Digest>, order: seq<string>, scripts: seq<Script>) {
    && (forall s | s in scripts :: s.path in expected && expected[s.path] == s.digest)
    && (forall path | path in expected :: Script(path, expected[path]) in scripts)
    && (forall path :: path in order <==> path in expected)
  }

  lemma RecordsAgree(expected: map<string, Digest>, order: seq<string>, scripts: seq<Script>)
    requires Records(expected, order, scripts)
    ensures Agreeing(scripts)
  {
  }

  /** Add one script unless its path is already recorded under another digest. */
  method Record(expected: map<string, Digest>, order: seq<string>, s: Script, ghost scripts: seq<Script>)
    returns (ok: bool, expected': map<string, Digest>, order': seq<string>)
    requires Records(expected, order, scripts)
    ensures ok ==> Records(expected', order', scripts + [s])
    ensures !ok ==> !Agreeing(scripts + [s])
  {
    if s.path in expected && expected[s.path] != s.digest {
      assert Script(s.path, expected[s.path]) in scripts + [s] && s in scripts + [s];
      return false, expected, order;
    }
    ok := true;
    order' := if s.path in expected then order else order + [s.path];
    expected' := expected[s.path := s.digest];
    assert forall x :: x in scripts + [s] <==> x in scripts || x == s;
  }

  lemma DisagreementStays(scripts: seq<Script>, more: seq<Script>)
    requires !Agreeing(scripts)
    ensures !Agreeing(scripts + more)
  {
    var a, b :| a in scripts && b in scripts && a.path == b.path && a.digest != b.digest;
    assert a in scripts + more && b in scripts + more;
  }

  lemma {:induction false} ChainScriptsPrefix(chain: seq<Layer>, k: nat)
    requires k <= |chain|
    ensures exists more :: ChainScripts(chain) == ChainScripts(chain[..k]) + more
    decreases |chain| - k
  {
    if k == |chain| {
      assert chain[..k] == chain;
      assert ChainScripts(chain) == ChainScripts(chain[..k]) + [];
    } else {
      ChainScriptsPrefix(chain, k + 1);
      var more :| ChainScripts(chain) == ChainScripts(chain[..k + 1]) + more;
      assert chain[..k + 1][..k] == chain[..k];
      assert ChainScripts(chain) == ChainScripts(chain[..k]) + (LayerScripts(chain[k]) + more);
    }
  }

  lemma OneMoreUnit(scripts: seq<Script>, units: seq<Script>, u: nat)
    requires u < |units|
    ensures scripts + units[..u + 1] == (scripts + units[..u]) + [units[u]]
    ensures !Agreeing(scripts + units[..u + 1]) ==> !Agreeing(scripts + units)
  {
    assert scripts + units[..u + 1] + units[u + 1..] == scripts + units;
    if !Agreeing(scripts + units[..u + 1]) { DisagreementStays(scripts + units[..u + 1], units[u + 1..]); }
  }

  /** The units of one layer. */
  method RecordUnits(expected: map<string, Digest>, order: seq<string>, units: seq<Script>, ghost scripts: seq<Script>)
    returns (ok: bool, expected': map<string, Digest>, order': seq<string>)
    requires Records(expected, order, scripts)
    ensures ok ==> Records(expected', order', scripts + units)
    ensures !ok ==> !Agreeing(scripts + units)
  {
    expected', order', ok := expected, order, true;
    var u := 0;
    assert scripts + units[..0] == scripts;
    while u < |units|
      invariant 0 <= u <= |units| && Records(expected', order', scripts + units[..u])
    {
      OneMoreUnit(scripts, units, u);
      ok, expected', order' := Record(expected', order', units[u], scripts + units[..u]);
      if !ok { return; }
      u := u + 1;
    }
    assert units[..u] == units;
  }

  /** The composed script of one layer, then its units. */
  method RecordLayer(expected: map<string, Digest>, order: seq<string>, l: Layer, ghost done: seq<Script>)
    returns (ok: bool, expected': map<string, Digest>, order': seq<string>)
    requires Records(expected, order, done)
    ensures ok ==> Records(expected', order', done + LayerScripts(l))
    ensures !ok ==> !Agreeing(done + LayerScripts(l))
  {
    assert done + LayerScripts(l) == (done + [l.script]) + l.units;
    ok, expected', order' := Record(expected, order, l.script, done);
    if !ok {
      DisagreementStays(done + [l.script], l.units);
      return;
    }
    ok, expected', order' := RecordUnits(expected', order', l.units, done + [l.script]);
  }

  lemma PrefixDisagrees(chain: seq<Layer>, k: nat)
    requires k <= |chain| && !Agreeing(ChainScripts(chain[..k]))
    ensures !Agreeing(ChainScripts(chain))
  {
    ChainScriptsPrefix(chain, k);
    var more :| ChainScripts(chain) == ChainScripts(chain[..k]) + more;
    DisagreementStays(ChainScripts(chain[..k]), more);
  }

  lemma OneMoreLayer(chain: seq<Layer>, k: nat)
    requires k < |chain|
    ensures ChainScripts(chain[..k + 1]) == ChainScripts(chain[..k]) + LayerScripts(chain[k])
    ensures ReplayPaths(chain[..k + 1]) == ReplayPaths(chain[..k]) + [chain[k].script.path]
    ensures AllPassed(chain[..k + 1]) <==> AllPassed(chain[..k]) && chain[k].passed
  {
    assert chain[..k + 1][..k] == chain[..k];
    assert chain[..k + 1] == chain[..k] + [chain[k]];
  }

  /** The expected digest of every script, and the layer scripts in chain order. */
  method ExpectedChainFiles(chain: seq<Layer>)
    returns (r: Result<map<string, Digest>, Failure>, order: seq<string>, replay: seq<string>)
    ensures r.Ok? <==> Sealable(chain)
    ensures r.Ok? ==> Records(r.value, order, ChainScripts(chain)) && replay == ReplayPaths(chain)
    ensures r == Err(NotAccepted) ==> !AllPassed(chain)
    ensures r == Err(ConflictingDigests) ==> !Agreeing(ChainScripts(chain))
    ensures r == Err(DuplicateScripts)
            <==> AllPassed(chain) && Agreeing(ChainScripts(chain)) && !Distinct(ReplayPaths(chain))
  {
    var expected: map<string, Digest> := map[];
    order, replay := [], [];
    var k := 0;
    while k < |chain|
      invariant 0 <= k <= |chain|
      invariant Records(expected, order, ChainScripts(chain[..k]))
      invariant AllPassed(chain[..k]) && replay == ReplayPaths(chain[..k])
    {
      var l := chain[k];
      OneMoreLayer(chain, k);
      if !l.passed { return Err(NotAccepted), order, replay; }
      var ok;
      ok, expected, order := RecordLayer(expected, order, l, ChainScripts(chain[..k]));
      if !ok {
        PrefixDisagrees(chain, k + 1);
        return Err(ConflictingDigests), order, replay;
      }
      replay := replay + [l.script.path];
      k := k + 1;
    }
    assert chain[..k] == chain;
    RecordsAgree(expected, order, ChainScripts(chain));
    DistinctIff(replay);
    r := if |replay| == |set path | path in replay| then Ok(expected) else Err(DuplicateScripts);
  }

  // ---- capture under interference -----------------------------------------------------------------

  /** The shot's files as the read at each time finds them. */
  type World = nat -> map<string, Bytes>

  /** The read of a path at a time finds bytes with this digest. */
  ghost predicate Finds(world: World, time: nat, path: string, digest: Digest) {
    path in world(time) && Sha256(world(time)[path]) == digest
  }

  /** Read every expected script once and compare its digest. */
  method CaptureSourceFiles(world: World, start: nat, expected: map<string, Digest>, order: seq<string>)
    returns (r: Result<map<string, Bytes>, Failure>, time: nat)
    requires forall path :: path in order <==> path in expected
    ensures r.Ok? ==> r.value.Keys == expected.Keys
                      && forall path | path in expected :: Sha256(r.value[path]) == expected[path]
    // It succeeds exactly when every read finds what was expected; each script is read once, in order.
    ensures r.Ok? <==> forall n | 0 <= n < |order| :: Finds(world, start + n, order[n], expected[order[n]])
    ensures r.Ok? ==> time == start + |order|
    ensures (forall t: nat :: Holds(world(t), expected)) ==> r.Ok?
    ensures Quiet(world) ==> (r.Ok? <==> Holds(world(0), expected))
    ensures Quiet(world) && r.Ok? ==>
              forall path | path in expected :: path in world(0) && r.value[path] == world(0)[path]
  {
    var captured: map<string, Bytes> := map[];
    time := start;
    var n := 0;
    while n < |order|
      invariant 0 <= n <= |order| && time == start + n
      invariant forall m | 0 <= m < n :: Finds(world, start + m, order[m], expected[order[m]])
      invariant forall path :: path in captured <==> path in order[..n]
      invariant forall path | path in captured :: path in expected && Sha256(captured[path]) == expected[path]
      invariant Quiet(world) ==> forall path | path in captured :: path in world(0) && captured[path] == world(0)[path]
    {
      var path := order[n];
      var files := world(time);
      time := time + 1;
      assert Finds(world, start + n, order[n], expected[path])
             <==> path in files && Sha256(files[path]) == expected[path];
      if path !in files { return Err(Missing), time; }
      if Sha256(files[path]) != expected[path] { return Err(Changed), time; }
      captured := captured[path := files[path]];
      assert order[..n + 1] == order[..n] + [path];
      n := n + 1;
    }
    assert order[..n] == order;
    assert captured.Keys == expected.Keys;
    r := Ok(captured);
  }

  ghost predicate Quiet(world: World) {
    forall t :: world(t) == world(0)
  }

  ghost predicate Holds(files: map<string, Bytes>, expected: map<string, Digest>) {
    forall path | path in expected :: path in files && Sha256(files[path]) == expected[path]
  }

  datatype Replay = Replay(path: string, payload: Bytes)

  /** Source and copy are read as the captured bytes. */
  ghost predicate Repeats(world: World, copies: World, time: nat, path: string, captured: map<string, Bytes>)
    requires path in captured
  {
    && Finds(world, time, path, Sha256(captured[path]))
    && Finds(copies, time, path, Sha256(captured[path]))
  }

  ghost predicate CopiedFrom(world: World, copies: World, start: nat, snapshot: seq<Replay>) {
    forall i | 0 <= i < |snapshot| ::
      && Finds(world, start + i, snapshot[i].path, Sha256(snapshot[i].payload))
      && Finds(copies, start + i, snapshot[i].path, Sha256(snapshot[i].payload))
  }

  /** Re-read each replay source, copy the captured bytes and read the copy back. */
  method SnapshotReplayFiles(world: World, start: nat, copies: World, replay: seq<string>, captured: map<string, Bytes>)
    returns (r: Result<seq<Replay>, Failure>)
    requires forall path | path in replay :: path in captured
    ensures r.Ok? ==> |r.value| == |replay|
                      && forall i | 0 <= i < |replay| :: r.value[i] == Replay(replay[i], captured[replay[i]])
    ensures r.Ok? ==> CopiedFrom(world, copies, start, r.value)
    // It succeeds exactly when each source still has the captured bytes and its copy reads back as them.
    ensures r.Ok? <==> forall n | 0 <= n < |replay| :: Repeats(world, copies, start + n, replay[n], captured)
    ensures && (forall t: nat, path | path in replay :: path in world(t) && world(t)[path] == captured[path])
            && (forall t: nat, path | path in replay :: path in copies(t) && copies(t)[path] == captured[path])
            ==> r.Ok?
  {
    var out: seq<Replay> := [];
    var time, n := start, 0;
    while n < |replay|
      invariant 0 <= n == |out| <= |replay|
      invariant forall i | 0 <= i < n :: out[i] == Replay(replay[i], captured[replay[i]])
      invariant time == start + n && forall m | 0 <= m < n :: Repeats(world, copies, start + m, replay[m], captured)
    {
      var path := replay[n];
      var files, copied := world(time), copies(time);
      assert Repeats(world, copies, start + n, replay[n], captured)
             <==> && path in files && files[path] == captured[path]
                  && path in copied && copied[path] == captured[path];
      time := time + 1;
      if path !in files || files[path] != captured[path] { return Err(Changed); }
      if path !in copied || copied[path] != captured[path] { return Err(Changed); }
      out := out + [Replay(path, captured[path])];
      n := n + 1;
    }
    r := Ok(out);
  }

  lemma {:induction false} LayerScriptListed(chain: seq<Layer>, i: nat)
    requires i < |chain|
    ensures chain[i].script in ChainScripts(chain)
    decreases |chain|
  {
    if i < |chain| - 1 {
      LayerScriptListed(chain[..|chain| - 1], i);
    }
  }

  lemma ReplayListed(expected: map<string, Digest>, order: seq<string>, chain: seq<Layer>)
    requires Records(expected, order, ChainScripts(chain))
    ensures forall i | 0 <= i < |chain| ::
              ReplayPaths(chain)[i] in expected && expected[ReplayPaths(chain)[i]] == chain[i].script.digest
  {
    forall i | 0 <= i < |chain|
      ensures ReplayPaths(chain)[i] in expected && expected[ReplayPaths(chain)[i]] == chain[i].script.digest
    {
      LayerScriptListed(chain, i);
    }
  }

  /** Every script of the chain holds its accepted bytes. */
  ghost predicate ChainHolds(files: map<string, Bytes>, chain: seq<Layer>) {
    forall s | s in ChainScripts(chain) :: s.path in files && Sha256(files[s.path]) == s.digest
  }

  /** Copies of the layer scripts read back as the shot's bytes. */
  ghost predicate FaithfulCopies(copies: World, files: map<string, Bytes>, chain: seq<Layer>) {
    forall t: nat, path | path in ReplayPaths(chain) && path in files ::
      path in copies(t) && copies(t)[path] == files[path]
  }

  /** Every read finds the accepted bytes, and every copy repeats them. */
  ghost predicate Undisturbed(world: World, copies: World, chain: seq<Layer>) {
    forall t: nat :: ChainHolds(world(t), chain) && FaithfulCopies(copies, world(t), chain)
  }

  lemma RecordsHold(expected: map<string, Digest>, order: seq<string>, chain: seq<Layer>, files: map<string, Bytes>)
    requires Records(expected, order, ChainScripts(chain))
    ensures Holds(files, expected) <==> ChainHolds(files, chain)
  {
    if Holds(files, expected) {
      forall s | s in ChainScripts(chain)
        ensures s.path in files && Sha256(files[s.path]) == s.digest
      {
        assert s.path in expected;
      }
    }
    if ChainHolds(files, chain) {
      forall path | path in expected
        ensures path in files && Sha256(files[path]) == expected[path]
      {
        assert Script(path, expected[path]) in ChainScripts(chain);
      }
    }
  }

  /** The layers' scripts in chain order, without duplicates, with exactly the bytes each was accepted with. */
  ghost predicate Accepted(chain: seq<Layer>, snapshot: seq<Replay>) {
    && Sealable(chain) && |snapshot| == |chain|
    && (forall i | 0 <= i < |chain| ::
          snapshot[i].path == chain[i].script.path && Sha256(snapshot[i].payload) == chain[i].script.digest)
    && (forall i, j | 0 <= i < j < |chain| :: snapshot[i].path != snapshot[j].path)
  }

  lemma SnapshotIsAccepted(chain: seq<Layer>, expected: map<string, Digest>, order: seq<string>,
                           captured: map<string, Bytes>, snapshot: seq<Replay>)
    requires Sealable(chain) && Records(expected, order, ChainScripts(chain))
    requires captured.Keys == expected.Keys
    requires forall path | path in expected :: Sha256(captured[path]) == expected[path]
    requires |snapshot| == |chain| && forall i | 0 <= i < |chain| ::
               ReplayPaths(chain)[i] in captured
               && snapshot[i] == Replay(ReplayPaths(chain)[i], captured[ReplayPaths(chain)[i]])
    ensures Accepted(chain, snapshot)
  {
    var paths := ReplayPaths(chain);
    ReplayListed(expected, order, chain);
    forall i | 0 <= i < |chain|
      ensures snapshot[i].path == paths[i] == chain[i].script.path
              && Sha256(snapshot[i].payload) == chain[i].script.digest
    {
      assert paths[i] in expected;
    }
  }

  /** Each entry was read from the shot and back from its copy, one after the other. */
  ghost predicate CopiedBack(world: World, copies: World, snapshot: seq<Replay>) {
    exists start :: CopiedFrom(world, copies, start, snapshot)
  }

  /** Copy the layer scripts that were captured. */
  method CopyChain(chain: seq<Layer>, world: World, time: nat, copies: World, captured: map<string, Bytes>,
                   ghost expected: map<string, Digest>, ghost order: seq<string>)
    returns (r: Result<seq<Replay>, Failure>)
    requires Sealable(chain) && Records(expected, order, ChainScripts(chain)) && captured.Keys == expected.Keys
    requires forall path | path in expected :: Sha256(captured[path]) == expected[path]
    ensures r.Ok? ==> Accepted(chain, r.value) && CopiedBack(world, copies, r.value)
    ensures Undisturbed(world, copies, chain) ==> r.Ok?
  {
    var replay := ReplayPaths(chain);
    ReplayListed(expected, order, chain);
    forall path | path in replay
      ensures path in captured
    {
      var i :| 0 <= i < |replay| && replay[i] == path;
    }
    r := SnapshotReplayFiles(world, time, copies, replay, captured);
    if r.Ok? {
      SnapshotIsAccepted(chain, expected, order, captured, r.value);
      assert CopiedFrom(world, copies, time, r.value);
    } else if Undisturbed(world, copies, chain) {
      UndisturbedRepeats(chain, world, time, copies, captured, expected, order);
    }
  }

  lemma UndisturbedRepeats(chain: seq<Layer>, world: World, time: nat, copies: World, captured: map<string, Bytes>,
                           expected: map<string, Digest>, order: seq<string>)
    requires Records(expected, order, ChainScripts(chain)) && captured.Keys == expected.Keys
    requires forall path | path in expected :: Sha256(captured[path]) == expected[path]
    requires Undisturbed(world, copies, chain)
    ensures var replay := ReplayPaths(chain);
            forall n | 0 <= n < |replay| ::
              replay[n] in captured && Repeats(world, copies, time + n, replay[n], captured)
  {
    var replay := ReplayPaths(chain);
    ReplayListed(expected, order, chain);
    forall n | 0 <= n < |replay|
      ensures replay[n] in captured && Repeats(world, copies, time + n, replay[n], captured)
    {
      LayerScriptListed(chain, n);
      assert replay[n] in replay && replay[n] in expected;
      assert ChainHolds(world(time + n), chain) && FaithfulCopies(copies, world(time + n), chain);
    }
  }

  /** On a quiet shot the accepted bytes are there at every read or at none. */
  lemma QuietIsUndisturbed(chain: seq<Layer>, world: World, copies: World)
    requires Quiet(world) && FaithfulCopies(copies, world(0), chain) && ChainHolds(world(0), chain)
    ensures Undisturbed(world, copies, chain)
  {
  }

  /** Read the expected scripts once, then copy the layer scripts; `expected` is what the chain recorded. */
  method CaptureChain(chain: seq<Layer>, world: World, copies: World, expected: map<string, Digest>, order: seq<string>)
    returns (r: Result<seq<Replay>, Failure>)
    requires Sealable(chain) && Records(expected, order, ChainScripts(chain))
    ensures r.Ok? ==> Accepted(chain, r.value) && CopiedBack(world, copies, r.value)
    ensures Undisturbed(world, copies, chain) ==> r.Ok?
    ensures Quiet(world) && FaithfulCopies(copies, world(0), chain) ==> (r.Ok? <==> ChainHolds(world(0), chain))
  {
    forall t: nat
      ensures Holds(world(t), expected) <==> ChainHolds(world(t), chain)
    {
      RecordsHold(expected, order, chain, world(t));
    }
    var captured, time := CaptureSourceFiles(world, 0, expected, order);
    if Quiet(world) && FaithfulCopies(copies, world(0), chain) && ChainHolds(world(0), chain) {
      QuietIsUndisturbed(chain, world, copies);
    }
    if captured.Err? { return Err(captured.error); }
    r := CopyChain(chain, world, time, copies, captured.value, expected, order);
  }

  /** Whatever else writes to the shot, a returned snapshot carries, in chain order and without
      duplicates, exactly the bytes each layer was accepted with. */
  method CaptureReplay(chain: seq<Layer>, world: World, copies: World) returns (r: Result<seq<Replay>, Failure>)
    ensures r.Ok? ==>
              && Sealable(chain) && |r.value| == |chain|
              && (forall i | 0 <= i < |chain| ::
                    r.value[i].path == chain[i].script.path && Sha256(r.value[i].payload) == chain[i].script.digest)
              && (forall i, j | 0 <= i < j < |chain| :: r.value[i].path != r.value[j].path)
              && CopiedBack(world, copies, r.value)
    // It fails only for a chain that cannot be sealed, or when some read or copy finds other bytes.
    ensures Sealable(chain) && Undisturbed(world, copies, chain) ==> r.Ok?
    // On a quiet shot whose copies are faithful, it succeeds exactly for a sealable chain whose scripts all hold.
    ensures Quiet(world) && FaithfulCopies(copies, world(0), chain) ==>
              (r.Ok? <==> Sealable(chain) && ChainHolds(world(0), chain))
  {
    var expected, order, replay := ExpectedChainFiles(chain);
    if expected.Err? { return Err(expected.error); }
    r := CaptureChain(chain, world, copies, expected.value, order);
  }
}
