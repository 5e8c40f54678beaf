# vfx-harness, verified

A Dafny model of the parts of the harness whose correctness is hardest to see from the code, with
proofs over all programs, runs, interleavings, crash points, images and layer sets.

| module | what it models |
|---|---|
| `ArtifactLanguage`, `AliasBindings`, `AliasLeastness`, `AliasOrders`, `ArtifactPolicy`, `ArtifactBehaviour`, `ArtifactEvents`, `ArtifactExactness` | the alias analysis and capability policy for artifact scripts, proved sound and exact against a small-step semantics of a Python subset started in the worker's namespace |
| `EnvironmentRecovery` | re-verification after an external repair: receipts, commit and probe results with a crash between any two writes |
| `DagOrder`, `RunDriver`, `RunController`, `DispatchRecovery`, `RunLoop` | the order of the layer DAG, the driver's pass with the builder's refusal, the controller that answers typed stops with a death between any two writes, the restart loop |
| `MediaTransaction`, `MediaPublication`, `LockOrder`, `ReplaySnapshot` | replace-with-rollback of the final render under faults and another writer, the ranked lock order, capture of replay scripts under interference |
| `TokenRefresh` | lock, reload, compare, spend and save among many processes (refresh grant of section 6 of RFC 6749; `exp` claim of section 4.1.4 of RFC 7519) |
| `FloodFill`, `BoxFeasibility`, `BoxSearch`, `BoxStarts` | two loop algorithms: the background fill and the bounded coordinate descent |
| `AcceptanceEvidence`, `AcceptanceSeal` | the normal form of a moment record and the seal/verify round trip |

`dafny verify dfyconfig.toml` checks everything.

## What the proofs found

Several properties that the code or its documentation suggests hold only under a condition. Each
is stated as an equivalence or with a concrete input that breaks it.

- The worker starts a script with `bpy` already bound. The policy accounts for every run exactly when
  the bindings still list `bpy` under that name; `import math as bpy`, even after the use or in a dead
  branch, makes it accept a script that renders. Looking only at what scripts do, two probes decide
  for every accepted one: the policy must take `bpy` for a bpy handle and refuse `bpy.utils`. The
  script `import bpy as y; bpy = y.ops.mesh` passes them although its root is unknown.
- The alias loop ends exactly when no live cycle of alias assignments lengthens a chain
  (`x = bpy; x = x.a` runs for ever). Its result is least among all closed maps exactly when nothing
  in it needs the default chain of an unimported `bpy` or `json`, and whether it keeps those defaults
  can depend on the order in which the walk lists the assignments.
- A changed probe identity stops an environment recovery for good exactly when its halting receipt
  became durable. A crash between storing the foreign result and publishing that receipt leaves an
  attempt that a later invocation commits.
- The residual test of the box search means what its description says exactly for tolerances in
  [0, 1): a missing reading counts as a residual of 1. The binding rows are chosen by rounded
  residuals, so an infeasible answer can name none.
- What the policy reports is what the analysis can justify, name by name, neither more nor less. It
  grants the frame read of the replay barrier `scene.frame_set(int(scene.frame_current))` unless the
  script gives `int` a refused chain.
- The token protocol stays safe exactly as long as no rotated token is lost - by a process dying (or
  a save failing) between answer and save, by an answer lost on the way and retried, or by a 200
  answer without an access token - and no login from outside overlaps a refresh. Such a login is
  overwritten by the save; a lost rotation is final until someone logs in.
- Re-verifying an acceptance compares evidence and trusts the sealed verdict flags: they vouch for the
  moments' own records exactly when the outcome was sealed with the verdicts of its evidence.
- Under a single fault the media transaction is atomic exactly when that fault is neither an interrupt
  after the publishing replace took effect and before the flag is set - then the output is the staged
  file and the predecessor is dropped - nor, when the postcondition refuses, a failure that keeps the
  rollback from taking effect.
- When no call fails and the postcondition refuses, a single replacement by another writer is lost
  exactly when it falls between the last look at the output and the call that replaces it, in the
  publication or in the rollback; the call then ends as rolled back. One that falls after the
  publishing replace, with the postcondition holding, stays at the output of a call that reports success.
- A controller that dies after it spent the fingerprint of a stop and before it wrote the ledger row
  loses that row for good: the stop is refused as a repeated finding ever after. After any earlier death
  the stop can be given again, and the replacement is paid for twice exactly when its commit was not durable. After a
  death between settling a key and recording it, a row can name the archive of another stop.
- The archive index of a failed dispatch is reused by the next dispatch; a run conserves its stops
  because the driver ends after an adapter failure.
- For the attempt a recovery key belongs to, only two refusals are reachable: a changed probe identity
  and a halted attempt. The refusal for another attempt's receipts is never reached in the model because
  a history is that of one attempt.

## Assumptions

- Digests are injective, so a digest is modelled as what it was taken of.
- Each durable publication is one atomic step. Everything outside the modelled code (planning,
  building, probing, gates, the network, the clock, the random generator) is an argument that
  answers arbitrarily.
- A file that was replaced since it was opened or checked fails the stat comparison, and publishing
  an attempt or an evaluation again with the same content changes nothing.
- The plan selected for a pass passed plan validation and does not change within the pass.
- In an artifact run the worker's helper functions, like builtins, are plain values.

## Model

| member | source | states |
|---|---|---|
| `ArtifactPolicy.SoundIff` | src/vfx_harness/blender/artifact_execution.py:394-502 | For every accepted program, started in the namespace the worker supplies: the analysis accounts for all its runs (every bpy handle a name holds is among that name's chains, every handle formed is among the chains resolved for its expression, no refused chain is formed, only the frame read escapes) if and only if its bindings still list `bpy` under the name `bpy` |
| `ArtifactPolicy.AcceptedProgramsAreSound` | src/vfx_harness/blender/artifact_execution.py:394-502 | The positive half, for every program and every run from the worker's namespace |
| `ArtifactPolicy.AcceptedRunsAreSound` | src/vfx_harness/blender/artifact_execution.py:384-502 | The same for one state of one run |
| `ArtifactPolicy.NamespaceSafeIff` | src/vfx_harness/blender/worker.py:1189-1210 | The preloaded `bpy` is accounted for exactly when the bindings know the root |
| `ArtifactPolicy.RootKnownInEveryOrderIff` | src/vfx_harness/blender/artifact_execution.py:199-266 | The condition read off the imports and assignments: in whatever order the walk lists the assignments of the program, each as often as the program has it, the bindings know the root exactly when an imported `bpy` gets its own chain from imports, or an unimported one is never rebound, gets it back from an import, or is rebound from itself alone |
| `ArtifactBehaviour.BehavesIff` | src/vfx_harness/blender/artifact_execution.py:394-502 | Behaviour alone, without the bookkeeping, for every accepted program: it stays harmless in every run with any accepted expression put in front, if and only if its bindings take `bpy` for a bpy handle and refuse `bpy.utils` |
| `ArtifactBehaviour.FamilyHidesNothing` | src/vfx_harness/blender/artifact_execution.py:163-266 | An unknown root is not always harmful: `import bpy as y; bpy = y.ops.mesh` is accepted and not sound in the sense of `SoundIff`, yet it and every accepted expression in front of it behave |
| `ArtifactBehaviour.AccountedProgramsBehave` | src/vfx_harness/blender/artifact_execution.py:384-502 | Chains of an allowed operator family may stand in for the handle a name really holds: an accepted program whose namespace is accounted for up to them does nothing the policy forbids in any run |
| `ArtifactBehaviour.ImportAfterUseHidesRender` | src/vfx_harness/blender/artifact_execution.py:199-223 | Counterexample: `bpy.ops.render.render()` followed by `import math as bpy` is accepted, and its first statement forms the refused render chain |
| `ArtifactPolicy.AcceptedExprIsSafe` | src/vfx_harness/blender/artifact_execution.py:412-474 | An expression without violations evaluates to a value its position may hold, and all events of its evaluation are harmless |
| `ArtifactPolicy.AcceptedUsesAreSafe` | src/vfx_harness/blender/artifact_execution.py:326-366 | Arguments, operands and returned values: nothing but the frame read escapes, and only as the sole argument of `int` inside `frame_set` |
| `ArtifactPolicy.AcceptedTargetsAreSafe` | src/vfx_harness/blender/artifact_execution.py:436-463 | Attribute and item targets of an assignment form no refused chain |
| `ArtifactPolicy.AssignKeepsEnv` | src/vfx_harness/blender/artifact_execution.py:245-265 | A closed map accounts for whatever an accepted assignment stores into names |
| `ArtifactPolicy.ImportKeepsEnv` | src/vfx_harness/blender/artifact_execution.py:199-233 | An admitted import binds a name to a chain of the map that is not refused |
| `ArtifactPolicy.StepKeepsSafety` | src/vfx_harness/blender/artifact_execution.py:384-391 | Each execution step of branches, loops, imports and assignments keeps the rest of the program accepted and the environment accounted for |
| `ArtifactPolicy.RunStaysSafe` | src/vfx_harness/blender/artifact_execution.py:384-391 | The invariant holds in every state of every run from the worker's namespace |
| `ArtifactPolicy.SeedBindsImports` | src/vfx_harness/blender/artifact_execution.py:199-233 | Every admitted import, wherever it is nested, is in every map above the import bindings |
| `ArtifactExactness.ArtifactViolations` | src/vfx_harness/blender/artifact_execution.py:394-502 | The collector reports exactly the violations deserved under the loop's result, nothing more and nothing less; an empty report means the program is sound in every run exactly when that result knows the root |
| `ArtifactExactness.ProgramReportedExactly` | src/vfx_harness/blender/artifact_execution.py:394-502 | For every program, bindings and violation: reported if and only if deserved. Deserved means a denied import, or an evaluation in some environment in which each name holds one of its chains that reads or calls an external capability, or uses a bpy handle as a value outside the one licensed read, at exactly that expression |
| `ArtifactExactness.ReportedExactly` | src/vfx_harness/blender/artifact_execution.py:412-474 | The same for one expression in any position |
| `ArtifactExactness.AcceptedIff` | src/vfx_harness/blender/artifact_execution.py:412-474 | An expression is accepted if and only if in every environment whose names hold chains of the bindings it forms and calls no external capability and lets no bpy handle out but the frame read |
| `ArtifactExactness.BarrierIsAcceptedIff` | src/vfx_harness/agents/builder/prior.py:191-196 | The barrier that replay artifacts end with, over any path that resolves to the scene alone, is accepted if and only if `int` does not resolve to a refused chain |
| `ArtifactExactness.AlwaysIff` | src/vfx_harness/blender/artifact_execution.py:163-196 | An expression is a handle on one fixed tracked chain in every environment if and only if it resolves to that chain alone |
| `ArtifactExactness.DeniedIff` | src/vfx_harness/blender/artifact_execution.py:199-233 | An import is admitted exactly when the whole dotted name it reads starts at an allowed root, is `bpy` alone when it starts there, and is absolute and named |
| `ArtifactPolicy.RefusedIff` | src/vfx_harness/blender/artifact_execution.py:270-298 | The chains refused are the external capabilities, listed by name: rendering, `load` on anything of bpy, `bpy.utils`, operators outside the allowed pairs, and anything of `json` but `dumps` |
| `AliasBindings.ArtifactBindings` | src/vfx_harness/blender/artifact_execution.py:239-266 | The `while changed` loop terminates whenever no live alias cycle lengthens a chain; it returns the fixpoint its passes reach, which is closed, holds only chains that imports and assignments explain, and lies below every closed map that keeps the default of unimported roots |
| `AliasBindings.BindingPass` | src/vfx_harness/blender/artifact_execution.py:241-265 | One pass is the pass function and keeps the state of the loop; a pass without change leaves a closed map, a pass with change adds a (name, chain) pair |
| `AliasBindings.BindTargets` | src/vfx_harness/blender/artifact_execution.py:255-265 | One assignment adds its chains to every simple-name target, and `changed` says exactly whether the map differs |
| `AliasBindings.ClosedMapExistsIff` | src/vfx_harness/blender/artifact_execution.py:239-266 | For every program: a closed map keeping the default roots exists if and only if no live alias cycle lengthens a chain |
| `AliasBindings.LengtheningCycleNeverCloses` | src/vfx_harness/blender/artifact_execution.py:239-266 | With such a cycle (`x = x.a`) no state of the loop is ever closed, so the loop runs for ever |
| `AliasBindings.AdmissibleBoundExists` | src/vfx_harness/blender/artifact_execution.py:239-266 | Without one, a finite map bounds every state of the loop |
| `AliasBindings.PotentialRises` | src/vfx_harness/blender/artifact_execution.py:163-173 | Along every live assignment the length bound of the target exceeds that of the source by the attributes gained |
| `AliasBindings.ResultIsDerived` | src/vfx_harness/blender/artifact_execution.py:163-173 | With the tracked roots left alone, the result holds a chain for a name exactly when an import binds it or a walk of alias assignments carries it there |
| `AliasBindings.DerivedInEvery` | src/vfx_harness/blender/artifact_execution.py:239-266 | Whatever a walk of assignments carries to a name is in every closed map that keeps the roots |
| `AliasBindings.ChainsTravel` | src/vfx_harness/blender/artifact_execution.py:163-173 | A closed map passes chains along every walk of assignments, with the attributes gained on the way |
| `AliasBindings.RebindingARootLosesItsDefault` | src/vfx_harness/blender/artifact_execution.py:163-168 | Counterexample to plain leastness: `x = bpy; bpy = json` without an import of bpy has two closed maps above the imports, neither below the other |
| `AliasLeastness.ResultIsLeastIff` | src/vfx_harness/blender/artifact_execution.py:239-266 | The result lies below every closed map above the imports if and only if nothing in it is carried from an unimported root |
| `AliasOrders.EveryOrderIsLeastIff` | src/vfx_harness/blender/artifact_execution.py:239-266 | As a condition on imports and assignments: every order of the assignments, each listed as often as the program has it, gives such a least result if and only if nothing assignments can carry needs the default of an unimported root |
| `AliasLeastness.ResultIsAdmissibleIff` | src/vfx_harness/blender/artifact_execution.py:163-173 | A result of the loop is a closed map keeping the roots if and only if every unimported root that a live assignment rebinds also got its own chain |
| `AliasOrders.EveryOrderKeepsRootsIff` | src/vfx_harness/blender/artifact_execution.py:163-173 | Every order of the assignments, each listed as often as the program has it, gives a result that keeps the roots if and only if each unimported root is never rebound, gets its chain back from an import, or is rebound from itself alone |
| `AliasOrders.Simplify` | src/vfx_harness/blender/artifact_execution.py:239-266 | Without a live lengthening cycle, every walk of assignments can be cut to one between the same names that gains the same attributes and uses each assignment at most once |
| `AliasLeastness.BoundNamesIff` | src/vfx_harness/blender/artifact_execution.py:239-266 | The result binds exactly the imported names and those a live assignment rebinds, in whatever order it was found |
| `EnvironmentRecovery.RecoveryStore.Execute` | src/vfx_harness/application/environment_recovery.py:344-446 | One invocation makes exactly the durable writes its plan lists, in order; when the process dies, exactly the writes made before that survive |
| `EnvironmentRecovery.RecoveryStore.ExecuteFromRunning` | src/vfx_harness/application/environment_recovery.py:370-446 | From a running receipt: halted, reconcile, conclude or probe, with the same write-by-write contract |
| `EnvironmentRecovery.InvokeConsistent` | src/vfx_harness/application/environment_recovery.py:344-446 | A crash after any number of writes of any invocation leaves a consistent state |
| `EnvironmentRecovery.HistoryConsistent` | src/vfx_harness/application/environment_recovery.py:344-446 | Every sequence of invocations, probe answers and crashes leaves a consistent state |
| `EnvironmentRecovery.ReachableShape` | src/vfx_harness/application/environment_recovery.py:214-341 | In every reachable state the chain is prepared, running*, terminal; no receipt cites more than one passing result; a commit names the last running receipt, a passing result of the attempt's own probe, and is the predecessor of any terminal receipt |
| `EnvironmentRecovery.OnlyIdentityRefusals` | src/vfx_harness/application/environment_recovery.py:344-446 | In every consistent state of one attempt an invocation of that attempt refuses only because the probe identity changed or the attempt is halted: all other error branches are dead |
| `EnvironmentRecovery.OutcomeExactly` | src/vfx_harness/application/environment_recovery.py:344-446 | In every consistent state a complete invocation refuses for a changed identity if and only if it probed and the identity differs; it is still failing if and only if it probed, the identity is the attempt's own and the result is not ok, and the receipt it then returns cites the probe exactly once |
| `EnvironmentRecovery.StillFailingLeaves` | src/vfx_harness/application/environment_recovery.py:412-446 | After a failing probe the returned receipt is the durable head and cites the probe exactly once, nothing is committed or halted, and a later complete invocation with a passing probe settles |
| `EnvironmentRecovery.ProbesIff` | src/vfx_harness/application/environment_recovery.py:344-446 | In any store, consistent or not, an invocation probes if and only if nothing is committed and there is no receipt yet, or an open one of the attempt citing only stored failing results of its own probe |
| `EnvironmentRecovery.SettledIsProven` | src/vfx_harness/application/environment_recovery.py:265-446 | Fail closed: in any store, consistent or not, an invocation that settles leaves a terminal head that closes a durable commit of a running receipt of the attempt, and that receipt cites a stored passing result of the attempt's own probe |
| `EnvironmentRecovery.TerminalIsProven` | src/vfx_harness/application/environment_recovery.py:299-341 | The independent verification of a terminal receipt never fails in a consistent state |
| `EnvironmentRecovery.SettledForEver` | src/vfx_harness/application/environment_recovery.py:358-369 | Once terminal, an invocation returns the same receipt, writes nothing and does not probe |
| `EnvironmentRecovery.SettledThroughHistory` | src/vfx_harness/application/environment_recovery.py:358-369 | No history after settlement changes anything |
| `EnvironmentRecovery.CommittedNeedsNoProbe` | src/vfx_harness/application/environment_recovery.py:265-296 | With a commit durable, the next completed invocation settles that commit without probing |
| `EnvironmentRecovery.NeverCommitsIff` | src/vfx_harness/application/environment_recovery.py:412-432 | After any invocation that saw a foreign probe identity, no later history ever commits if and only if all its writes became durable: four from an empty store, three from a prepared receipt, two from a running one, the last being the halting receipt |
| `EnvironmentRecovery.CrashBeforeHaltCommits` | src/vfx_harness/application/environment_recovery.py:417-425 | Counterexample to the unconditional form: a process that dies between storing the foreign result and publishing the halting receipt leaves an attempt that the next complete invocation commits |
| `EnvironmentRecovery.HaltedForEver` | src/vfx_harness/application/environment_recovery.py:385-388 | Once the halting receipt is durable no later invocation writes or commits anything |
| `EnvironmentRecovery.SettlingCommits` | src/vfx_harness/application/environment_recovery.py:433-446 | An invocation that settles leaves a commit and a terminal head |
| `EnvironmentRecovery.PassingProbeSettles` | src/vfx_harness/application/environment_recovery.py:238-262 | An uninterrupted invocation with a passing probe of the right identity settles unless the attempt was halted |
| `DagOrder.TopologicalOrder` | src/vfx_harness/domain/work_units/capabilities.py:151-195 | Kahn's loop with the authored tie-break: whenever a topological order exists, the one that takes the first ready layer at every step; the authored order otherwise, and whenever dependencies point backwards |
| `DagOrder.StrictOrder` | src/vfx_harness/domain/work_units/capabilities.py:198-230 | Accepted if and only if ids are distinct, dependencies known and some topological order exists, and then with the first ready layer at every step; duplicate ids are reported before unknown dependencies; a validated plan keeps its authored order |
| `DagOrder.StableIsUnique` | src/vfx_harness/domain/work_units/capabilities.py:151-195 | Taking the first ready layer at every step fixes the order: two such schedules of a plan are equal |
| `DagOrder.FinishedLoop` | src/vfx_harness/domain/work_units/capabilities.py:173-195 | With nothing ready, the loop has ordered every layer exactly when a topological order exists |
| `DagOrder.NextInOrder` | src/vfx_harness/domain/work_units/capabilities.py:173-192 | While dependencies point backwards the next layer taken is the next authored one |
| `DagOrder.ValidPlanFacts` | src/vfx_harness/orchestration/plan_authoring.py:184-188 | What plan validation demands makes ids distinct and increasing, dependencies known and backward |
| `RunDriver.CompletedPassIsSound` | src/vfx_harness/application/run_shot.py:529-574 | Whatever planning revokes and whatever gates and builders answer, a pass that returns normally leaves every requested layer current; no order of ids is assumed |
| `RunDriver.StopIsJustified` | src/vfx_harness/application/run_shot.py:529-574 | A pass stops only because of its last answer: unreachable owners, a failed planning step (not given to the controller), a gate that does not clear, a builder that refuses or fails |
| `RunDriver.PassPublishes` | src/vfx_harness/application/run_shot.py:529-574 | Whatever a pass leaves current and did not find current was published by one of its builders, started on accepted prior work |
| `RunDriver.PassBuildsWhatIsNeeded` | src/vfx_harness/application/run_shot.py:529-574 | On a validated chain a pass starts builders for requested layers, and for others only when they are not current |
| `RunDriver.CurrentPassIsIdle` | src/vfx_harness/application/run_shot.py:529-551 | A pass over layers that are done, current and clean asks its gates and does nothing else |
| `RunDriver.DirtyPassPlans` | src/vfx_harness/application/run_shot.py:529-551 | A layer is skipped only when its gate finds it clean: where none is, a completed pass has planned every requested layer again |
| `RunDriver.ValidatedPlanNeverRefuses` | src/vfx_harness/agents/builder/prior.py:106-176 | On the chain of a validated plan every builder, reopened ones included, starts with every lower layer of the DAG current, though each planning step may revoke any of them: the builder's refusal never fires |
| `RunDriver.RebuiltStartsReady` | src/vfx_harness/application/run_shot.py:110-120 | Rebuilding the reopened layers in chain order starts each one on a current prefix |
| `RunDriver.VisitsComplete` | src/vfx_harness/application/run_shot.py:529-574 | From any layer on, a pass that completes keeps the earlier requested layers current |
| `RunDriver.DriveLayers` | src/vfx_harness/application/run_shot.py:529-574 | The pass over the layers is the pass function: same end, same publications, same builder starts |
| `RunDriver.RebuildLower` | src/vfx_harness/application/run_shot.py:565-568 | The rebuild loop is the rebuild function |
| `RunDriver.Publications.Build` | src/vfx_harness/agents/builder/prior.py:106-176 | A builder refuses unless every layer before its own in the chain is current; on success its layer, and only that, becomes current |
| `RunDriver.RangeInChainOrder` | src/vfx_harness/application/run_shot.py:465-469 | The requested range keeps the order of the chain |
| `RunLoop.Drive` | src/vfx_harness/application/run_shot.py:454-524 | The restart loop makes exactly the passes, controller answers and state changes of `Run`, and ends for the same reason: completed, unanswerable, unprepared, refused |
| `RunLoop.NothingRequestedIff` | src/vfx_harness/application/run_shot.py:465-476 | No pass is made, and nothing changes, if and only if the first chain has no layer in the requested range |
| `RunLoop.RunEndsWithItsLastTurn` | src/vfx_harness/application/run_shot.py:506-524 | The run ends for the reason its last pass gives: completed, stopped where the controller is not asked, no stop left for it, or refused by it |
| `RunLoop.PassesAreBounded` | src/vfx_harness/application/run_shot.py:506-524 | One pass more than the rows it appends, so at most one more than the dispatch cap leaves |
| `RunLoop.RunKeepsLimits` | src/vfx_harness/application/run_controller.py:245-307 | Through a whole run the rows stay within both caps and the attempts keep pairwise distinct fingerprints |
| `RunLoop.RunConservesStops` | src/vfx_harness/application/run_controller.py:450-605 | Through a whole run the stop of each pass is archived under its dispatch index, and the last one, if the controller refused it, is archived or still selected |
| `RunLoop.RunArchivesRows` | src/vfx_harness/application/run_controller.py:609-661 | Every ledger row names its archived stop, to the end of the run |
| `RunLoop.FinishedRunIsSound` | src/vfx_harness/application/run_shot.py:506-524 | A finished run left every requested layer of its last plan current |
| `RunLoop.RunNeverRefusesBuilders` | src/vfx_harness/application/run_shot.py:529-574 | No builder of a run over validated plans is ever refused for unaccepted prior work |
| `RunController.RunController.Dispatch` | src/vfx_harness/application/run_controller.py:200-307 | A decision table with both directions of every row: not dispatchable, budget, repeated finding, then dispatched exactly when the key's transaction settles. On every path the durable writes are those of the plan, in order; the stop is still selected or archived under its index and earlier archives are untouched; a dispatch appends one row and spends one fingerprint never recorded before |
| `RunController.CapReachedIff` | src/vfx_harness/application/run_controller.py:245-277 | The cap tests refuse exactly what cannot be afforded, each layer's rows counted by the set of their positions, and for no other reason than the budget |
| `RunController.BudgetRefusalIff` | src/vfx_harness/application/run_controller.py:245-277 | For rows within the caps, a dispatch is refused for budget if and only if appending its row would break a cap or the spend reaches the ceiling, if there is one |
| `RunController.RepeatedIff` | src/vfx_harness/application/run_controller.py:279-306 | A stop is refused as repeated if and only if recording it would repeat a fingerprint |
| `RunController.RunController.DispatchLocked` | src/vfx_harness/application/run_controller.py:450-556 | The transaction under the key lock makes the writes of its plan in order: dispatched exactly when the key was or becomes committed; the stage runs only for a key without commit, after the stop is archived; other keys are untouched |
| `RunController.RunController.RecordCommitted` | src/vfx_harness/application/run_controller.py:609-661 | Spends the fingerprint, archives the stop unless its index is taken, appends one row - in this order |
| `RunController.RunController.ConsumeEnvelope` | src/vfx_harness/application/run_controller.py:597-605 | Archives the stop under the next index and frees the selected slot |
| `RunController.AnsweredKeeps` | src/vfx_harness/application/run_controller.py:200-307 | Whichever way one answer goes: the stop conserved, other archives untouched, and a dispatch adds one row within both caps and one fresh fingerprint |
| `RunController.LockedFacts` | src/vfx_harness/application/run_controller.py:450-556 | The transaction dispatches exactly when its key settles, and touches no other key |
| `RunController.FreshFingerprint` | src/vfx_harness/application/run_controller.py:299-306 | Recorded attempts of a shot keep pairwise distinct fingerprints |
| `RunController.DispatchKeepsCaps` | src/vfx_harness/application/run_controller.py:245-277 | A dispatched row keeps the run cap and every layer's cap |
| `RunController.FailedArchiveIsOverwritten` | src/vfx_harness/application/run_controller.py:576-605 | Counterexample: the archive index of a failed dispatch is reused, so of two stops given in turn to stages that publish nothing the first is left nowhere |
| `DispatchRecovery.AnswerPlanIs` | src/vfx_harness/application/run_controller.py:450-661 | Carried out to the end, the planned writes are the answer |
| `DispatchRecovery.PrefixRecords` | src/vfx_harness/application/run_controller.py:609-661 | After any number of writes of a dispatch: attempts and rows are untouched up to the record, then the fingerprint is spent, and only the last write adds the row |
| `DispatchRecovery.RedispatchRecordsIff` | src/vfx_harness/application/run_controller.py:450-661 | A controller died after any number of writes short of all. Given the same stop, a later one records it if and only if the fingerprint was not spent yet and the key has its commit or gets one now |
| `DispatchRecovery.StageRepeatsIff` | src/vfx_harness/application/run_controller.py:487-549 | The replacement stage runs a second time for the stop if and only if it published nothing or the controller died before the commit was durable |
| `DispatchRecovery.DeathLosesRowIff` | src/vfx_harness/application/run_controller.py:609-661 | No later history of dispatches, deaths and runs can record the cause if and only if the controller died after spending the fingerprint and before writing the row |
| `DispatchRecovery.LostForEver` | src/vfx_harness/application/run_controller.py:299-306 | A spent fingerprint without a row stays so through every history |
| `DispatchRecovery.DeathKeeps` | src/vfx_harness/application/run_controller.py:450-661 | Wherever a dispatch dies, its stop is still selected or archived under its index, no other archive changed, rows stay within both caps and fingerprints distinct |
| `DispatchRecovery.HistoryKeepsLimits` | src/vfx_harness/application/run_controller.py:245-307 | Caps and distinct fingerprints hold through every history of dispatches, deaths and new runs |
| `DispatchRecovery.RowNamesItsStopIff` | src/vfx_harness/application/run_controller.py:622-641 | The archive a new row names holds the stop the row consumed if and only if the stage ran now, the index was free, or the stop was archived there already |
| `DispatchRecovery.RowNamesAnotherStop` | src/vfx_harness/application/run_controller.py:622-641 | The other case is reached: a controller settles one key and dies, another stop fails under the same index, and the row of the first then names the archive of the second |
| `MediaPublication.PublishMediaTransaction` | src/vfx_harness/application/render_shot.py:414-454 | The code computes the transaction function, call by call, for every schedule of faults and of replacements by a writer that may act before any call |
| `MediaPublication.OutputIsFinal` | src/vfx_harness/application/render_shot.py:414-454 | What the output holds in the end, read off the schedule of faults and of the other writer's replacements at any calls: the staged bytes, the exact predecessor (or absence), or the bytes of the writer's last replacement after them |
| `MediaPublication.EndIsExact` | src/vfx_harness/application/render_shot.py:414-454 | How the call ends, read off the schedule: not published, published, published and then failed, rolled back, rollback failed with the backup retained |
| `MediaPublication.BackupIsFinal` | src/vfx_harness/application/render_shot.py:295-454 | Which files are left: a backup stays exactly when the call removing it (of a failed copy, a failed replace or a commit) has no effect, or the restoring call of a rollback has none; a failed rollback reports exactly whether it is there; the staged file is gone exactly when the replace took effect |
| `MediaPublication.AtomicIff` | src/vfx_harness/application/render_shot.py:414-454 | Without another writer the result is the staged bytes with the postcondition having held, or the exact predecessor, if and only if the publishing replace is not interrupted and a rollback, if any, takes effect (or both byte strings agree) |
| `MediaPublication.OneFaultAtomicIff` | src/vfx_harness/application/render_shot.py:414-454 | At most one fault, no other writer, any postcondition: atomic if and only if the fault is neither an interrupt of the publishing replace after it took effect (call `calls + 2` without a predecessor, `calls + 6` with one) nor, when the postcondition refuses, one that keeps the rollback from taking effect |
| `MediaPublication.CleanTransaction` | src/vfx_harness/application/render_shot.py:414-454 | Without faults the staged file is published if the postcondition holds, else the predecessor is restored |
| `MediaPublication.InterruptedReplaceLosesPredecessor` | src/vfx_harness/application/render_shot.py:424-453 | After an interrupted replace the output is the staged file or what another writer put there since, the call ends as not published, and the backup is gone exactly when its clean-up takes effect |
| `MediaPublication.InterruptAt` | src/vfx_harness/application/render_shot.py:424-453 | A schedule that does it with a single fault, for any disk with a staged file and a predecessor |
| `MediaPublication.PredecessorIsKept` | src/vfx_harness/application/render_shot.py:295-454 | After a publishing replace that was not interrupted, the predecessor's bytes were at the output or in the backup in every state from opening the output to the commit, or to the end of a rollback, unless another writer replaces the restored output |
| `MediaPublication.UnpublishedKeeps` | src/vfx_harness/application/render_shot.py:295-454 | A call that ends before the replace takes effect leaves the staged file and, but for another writer, the output untouched, with the predecessor present in every state |
| `MediaPublication.EarlyWriterIsLeftAlone` | src/vfx_harness/application/render_shot.py:365-371 | A writer that replaces the tentative output before the ownership check is never overwritten and the backup is retained |
| `MediaPublication.LateWriterIsOverwrittenIff` | src/vfx_harness/application/render_shot.py:374-410 | A writer between the ownership check and the restoring call loses its bytes if and only if that call takes effect |
| `MediaPublication.OneWriterIsOverwrittenIff` | src/vfx_harness/application/render_shot.py:295-454 | A single replacement by another writer at any call, no fault and a refusing postcondition: its bytes are lost if and only if it acts between the last look at the output and the call that replaces it, when publishing or when rolling back; the call then ends as rolled back, with what the output held before |
| `MediaPublication.RestoreOutputPredecessor` | src/vfx_harness/application/render_shot.py:374-410 | The code computes the restore function, which `RestoreExactly` describes |
| `MediaPublication.RollBack` | src/vfx_harness/application/render_shot.py:433-449 | The code computes the rollback function, which keeps the backup exactly when there is one left to keep |
| `MediaPublication.CopyOutputPredecessor` | src/vfx_harness/application/render_shot.py:295-362 | The code computes the copy function, which `CopyExactly` describes |
| `MediaPublication.Commit` | src/vfx_harness/application/render_shot.py:450-454 | The code computes the commit function, which `CommitKeepsOutput` describes |
| `MediaTransaction.CopyExactly` | src/vfx_harness/application/render_shot.py:295-362 | An existing output is copied if and only if no call fails and nobody replaces it between opening it and the comparison after the copy; the backup then holds the bytes that were opened |
| `MediaTransaction.RestoreExactly` | src/vfx_harness/application/render_shot.py:374-410 | The rollback returns if and only if its calls succeed on an output still owned and the predecessor is read back; otherwise it leaves the backup, and at the output what the schedule says |
| `MediaTransaction.CommitKeepsOutput` | src/vfx_harness/application/render_shot.py:450-454 | Commit leaves the output alone and reports success if and only if its calls succeed |
| `LockOrder.PublicationsComplete` | src/vfx_harness/application/render_shot.py:531-575 | Any publications with any outputs, layers and lock modes: no lock is ever shared against its mode, and a run that cannot go on is one in which all have finished, after exactly as many steps as there are locks and ends |
| `LockOrder.PublishersNeverDeadlock` | src/vfx_harness/application/final_render_snapshot.py:871-886 | In every reachable state with an unfinished publisher some publisher can step |
| `LockOrder.SomePublisherCanStep` | src/vfx_harness/application/final_render_snapshot.py:871-886 | The same for any state of publishers with ranked lock plans |
| `LockOrder.PublisherPlanRanked` | src/vfx_harness/application/final_render_snapshot.py:878-885 | Output, selection, unit-state locks in sorted path order, ledger: always a strictly ranked plan of exactly these locks, each layer path once |
| `LockOrder.StuckWaitsHigher` | src/vfx_harness/application/final_render_snapshot.py:871-886 | What blocks a publisher is held by one that waits, if at all, for a lock of higher rank |
| `LockOrder.RunsAreBounded` | src/vfx_harness/application/final_render_snapshot.py:871-886 | The steps of a run and those that remain after it are always those that remained before |
| `LockOrder.LocksExclude` | src/vfx_harness/application/final_render_snapshot.py:871-886 | In every reachable state a lock held exclusively is held by nobody else |
| `LockOrder.CanTakeIff` | src/vfx_harness/application/final_render_snapshot.py:871-886 | A waiting publisher can take its lock if and only if that shares it with nobody against its mode |
| `ReplaySnapshot.CaptureReplay` | src/vfx_harness/application/final_render_snapshot.py:537-602 | Under arbitrary concurrent writes, a returned snapshot carries each layer script once, in chain order, with exactly the bytes whose digest the accepted chain recorded, each copied and read back; it fails only for a chain that cannot be sealed or when some read or copy finds other bytes, and on a quiet shot it succeeds exactly for a sealable chain whose scripts hold |
| `ReplaySnapshot.ExpectedChainFiles` | src/vfx_harness/application/final_render_snapshot.py:127-181 | Succeeds exactly when every layer passed, no path is recorded under two digests and no layer script repeats; then it records exactly the chain's scripts |
| `ReplaySnapshot.CaptureSourceFiles` | src/vfx_harness/application/final_render_snapshot.py:219-304 | Succeeds if and only if each file, read once in order, then has the expected digest, whatever other writers do in between; the captured bytes are those that have it |
| `ReplaySnapshot.SnapshotReplayFiles` | src/vfx_harness/application/final_render_snapshot.py:537-602 | Succeeds if and only if each source still has the captured bytes when it is copied and its copy reads back as them; every replay entry is the captured bytes |
| `TokenRefresh.StepSafeIff` | src/vfx_harness/assets/codex_auth.py:195-238 | Every step of every process, a login from outside included, keeps the protocol invariant if and only if it neither loses a rotated token nor is a login that overlaps a refresh |
| `TokenRefresh.RunsAreSafe` | src/vfx_harness/assets/codex_auth.py:195-238 | The invariant over every interleaving of any number of processes |
| `TokenRefresh.EveryRequestIsLive` | src/vfx_harness/assets/codex_auth.py:132-238 | With logins between refreshes: the server accepts the token of every refresh request, no spent token is ever sent, and whenever the lock is free the file holds a valid token |
| `TokenRefresh.StaleProcessNeverSpends` | src/vfx_harness/assets/codex_auth.py:208-216 | A process whose token was rotated while it waited can only adopt the result or raise |
| `TokenRefresh.WaiterRaisesIff` | src/vfx_harness/assets/codex_auth.py:208-216 | Over all runs, logins and lost rotations included: a waiter raises that the account changed if and only if it had loaded a known account and the file now holds another one; with another token of its account, or no account known, the call returns the file's credentials |
| `TokenRefresh.RefreshesNeverSwitch` | src/vfx_harness/assets/codex_auth.py:195-238 | While processes only refresh, none ever finds the account changed, and every waiter whose token was rotated adopts the new credentials of its own account |
| `TokenRefresh.OverlappedLoginIsLost` | src/vfx_harness/assets/codex_auth.py:218-238 | A login from outside between a grant and its save is overwritten: the old account is back in the file and the token of the login is valid in no file |
| `TokenRefresh.HolderDecides` | src/vfx_harness/assets/codex_auth.py:207-218 | In every reachable state a process holding the lock can take exactly one of: adopt, raise, return its fresh token, request |
| `TokenRefresh.RefreshCompletes` | src/vfx_harness/assets/codex_auth.py:218-238 | In a safe state a request can always be granted, and saving then completes the call: the file holds the new tokens for the same account and is what the call returns |
| `TokenRefresh.LostUntilLogin` | src/vfx_harness/assets/codex_auth.py:167-192 | A lost rotation is final: until someone logs in, no request is granted and the file never changes |
| `TokenRefresh.LostRotationIsSentAgain` | src/vfx_harness/assets/codex_auth.py:167-192 | After a lost rotation a spent token may be sent: by the retry, or by the next process to take the lock |
| `TokenRefresh.WaiterRefreshesIff` | src/vfx_harness/assets/codex_auth.py:207-218 | A process that waited while another refreshed and saved sends a request of its own exactly when the server reused the refresh token and it is forced or the credentials just written are due |
| `FloodFill.KeyBackground` | src/vfx_harness/assets/codex_images.py:225-258 | Alpha is 0 at a pixel exactly when a 4-connected path of matching pixels joins it to the image border, 255 otherwise; the loop terminates |
| `FloodFill.FinishedFill` | src/vfx_harness/assets/codex_images.py:238-254 | With an empty stack the invariant is the path characterisation |
| `FloodFill.VisitMatch` | src/vfx_harness/assets/codex_images.py:244-254 | Keying out a matching pixel and pushing its neighbours keeps the invariant |
| `FloodFill.BorderStack` | src/vfx_harness/assets/codex_images.py:240-243 | The initial stack holds exactly the border pixels |
| `FloodFill.BackgroundIsMean` | src/vfx_harness/assets/codex_images.py:225-233 | The backdrop colour is, channel by channel, the mean of the four corner pixels, rounded down |
| `BoxSearch.SolveBoxFeasibility` | src/vfx_harness/blender/bbox_feasibility.py:67-189 | Raises exactly on an ill-posed problem; otherwise evaluates the points of the search function, in order, returns the first best of them and the rows binding there. In image coordinates: for a tolerance in [0, 1) and any camera, `feasible` holds exactly when the box returned, equivalently any box evaluated, fits every row: the camera sees it and the edge, extent or midpoint its kind names lies in the widened window. It gives up only with the budget spent, by when every seeded start whose share came was evaluated |
| `BoxSearch.SearchGuarantees` | src/vfx_harness/blender/bbox_feasibility.py:128-189 | The search starts at the midpoint, stays in bounds, evaluates at most max(1, `evaluations`) points and ends at the least objective of all of them; it stops early only at a tolerable point |
| `BoxStarts.SearchIsItsTurns` | src/vfx_harness/blender/bbox_feasibility.py:128-189 | The search evaluates the midpoint and then exactly the points of its turns, up to the first turn after which the budget is spent or the best point is tolerable |
| `BoxStarts.TurnExactly` | src/vfx_harness/blender/bbox_feasibility.py:133-170 | The n-th turn begins at the n-th seeded start with that start's step and share, or at the next six random draws with all that is left; it ends short of its share only at a tolerable point or where no move of the last length tried improves |
| `BoxStarts.SeededStartsExactly` | src/vfx_harness/blender/bbox_feasibility.py:128-132 | The seeded starts are the starts with six coordinates, in order, each coordinate moved into the bounds by as little as possible; there are no others |
| `BoxStarts.SweepIsItsMoves` | src/vfx_harness/blender/bbox_feasibility.py:148-168 | A sweep moves along the axes in ascending order, each time from the best point so far; ending early skips nothing that would be evaluated |
| `BoxStarts.AxisMoveExactly` | src/vfx_harness/blender/bbox_feasibility.py:152-168 | One move: the lower candidate first, the upper one only if that does not improve and the budget lasts, none that a bound makes equal to the point |
| `BoxStarts.PerStartMeans` | src/vfx_harness/blender/bbox_feasibility.py:133-136 | The share of a seeded start: the whole part of the budget split into two more parts than seeds, but at least 60 |
| `BoxStarts.SeedStepMeans` | src/vfx_harness/blender/bbox_feasibility.py:140-142 | A seeded start first steps by its largest size along the centre axes and by half of each size along that size's axis |
| `BoxSearch.SeedsComeUp` | src/vfx_harness/blender/bbox_feasibility.py:128-146 | A search that finds nothing has evaluated every seeded start whose share of the budget came |
| `BoxSearch.DescentKeeps` | src/vfx_harness/blender/bbox_feasibility.py:147-170 | A descent by any sweeps that keep the best point and their budget stays in bounds and within its budget, ends at the best point it evaluated, and stops early only at a tolerable point or where no move of the last length tried improves |
| `BoxSearch.SweepKeeps` | src/vfx_harness/blender/bbox_feasibility.py:148-168 | A sweep by any such moves improves, or spends the budget, or shows that no move along any axis improves |
| `BoxSearch.FairShareReachesAll` | src/vfx_harness/blender/bbox_feasibility.py:133-136 | When the shares are above the minimum, the turn of every seeded start comes |
| `BoxSearch.Descend` | src/vfx_harness/blender/bbox_feasibility.py:147-170 | The loops of one restart evaluate exactly the points of the descent function and end where it does |
| `BoxSearch.SweepAxes` | src/vfx_harness/blender/bbox_feasibility.py:148-168 | The loop over the axes is the sweep function, each axis from the best point so far |
| `BoxSearch.TryAxis` | src/vfx_harness/blender/bbox_feasibility.py:152-168 | Both directions of one axis, lower first: exactly the evaluations and the first improvement of the move function |
| `BoxSearch.UnmovedAxis` | src/vfx_harness/blender/bbox_feasibility.py:152-168 | With budget left, not moving means that neither direction improves |
| `BoxFeasibility.ResidualTestIsExactIff` | src/vfx_harness/blender/bbox_feasibility.py:56-64 | Comparing the residual with a tolerance means "present and in the widened window" for all readings and windows if and only if the tolerance is in [0, 1) |
| `BoxFeasibility.ObjectiveMeaning` | src/vfx_harness/blender/bbox_feasibility.py:105-126 | The worst residual is within tolerance exactly when all rows are satisfied |
| `BoxFeasibility.SatisfiesIff` | src/vfx_harness/blender/bbox_feasibility.py:19-52 | For every camera: the rows are satisfied exactly when the box fits them in the image |
| `BoxFeasibility.ReadingsAgree` | src/vfx_harness/blender/bbox_feasibility.py:19-52 | The readings of one image rectangle hang together: the vertical centre is half way between top and bottom, which are the height apart; the width is not negative exactly when the left edge is not right of the right one |
| `BoxFeasibility.ReadingsMove` | src/vfx_harness/blender/bbox_feasibility.py:19-52 | Moving the edges of the image rectangle: a shift moves the centre and the vertical edges with it and keeps the extents; pulling the right or bottom edge changes the extent by as much and the centre by half |
| `BoxSearch.AnswerMeaning` | src/vfx_harness/blender/bbox_feasibility.py:174-189 | `feasible`, the returned point and the trace agree |
| `BoxFeasibility.NothingBindsIff` | src/vfx_harness/blender/bbox_feasibility.py:123-177 | No row is binding exactly when the rounded objective is within the tolerance |
| `BoxFeasibility.BindingAgreesIff` | src/vfx_harness/blender/bbox_feasibility.py:174-178 | For a tolerance of whole units of 1e-4: `feasible` and an empty binding list agree if and only if the objective is not in the half unit above the tolerance (its end included when the unit is even) |
| `BoxFeasibility.HiddenBindingRowExists` | src/vfx_harness/blender/bbox_feasibility.py:174-178 | Counterexample: at the default tolerance a worst residual of 0.00104 is infeasible and binds no row |
| `AcceptanceEvidence.CaptureIsNormalForm` | src/vfx_harness/agents/acceptance_stop_evidence.py:269-326 | Two valid records have equal captures exactly when ids, bytes and measured facts agree up to the order of readings and contracts, ignoring prose and locators |
| `AcceptanceEvidence.SortsAgreeIff` | src/vfx_harness/agents/acceptance_stop_evidence.py:208-266 | For distinct ids, equal sorted lists means equal multisets |
| `AcceptanceEvidence.MetricReadings` | src/vfx_harness/agents/acceptance_stop_evidence.py:208-230 | The loop yields the sorted readings, or refuses a non-blocking reading, a repeated id or failures without readings |
| `AcceptanceEvidence.ContractEvidence` | src/vfx_harness/agents/acceptance_stop_evidence.py:233-266 | The loop yields the sorted contract facts without their prose, or refuses a repeated id |
| `AcceptanceEvidence.JudgedRecordIsValidIff` | src/vfx_harness/agents/acceptance.py:352-417 | A record that acceptance builds from any deltas, verdicts and contracts over a stashed render passes the validator exactly when the blocking deltas and the contracts have distinct ids, the render is unchanged and was an EEVEE render at its own resolution, and an empty plate was judged a failure |
| `AcceptanceEvidence.JudgmentMeans` | src/vfx_harness/agents/acceptance.py:352-417 | A judged moment passes exactly when no delta blocks, the critic passed it and every authoritative contract holds; the critic is heard exactly when nothing blocks, and the readings are the blocking deltas |
| `AcceptanceEvidence.TamperingIsRefused` | src/vfx_harness/agents/acceptance_stop_evidence.py:142-326 | Of a valid record nothing determined by its other parts can be changed: verdict, frame, attested capture, rendered bytes; no reading or contract can be repeated |
| `AcceptanceEvidence.DistinctDeltas` | src/vfx_harness/agents/acceptance.py:352-390 | Distinct delta ids give distinct reading ids |
| `AcceptanceSeal.SealedOutcomeAcceptedIff` | src/vfx_harness/agents/acceptance_stop.py:449-530 | An outcome compiled from an attempt is accepted later exactly when authority is unchanged, a fresh capture repeats the sealed one, every moment had passed, and the debt and completion gates are clear |
| `AcceptanceSeal.AcceptedOutcomeIff` | src/vfx_harness/agents/acceptance_stop.py:449-530 | Of all outcomes a ledger could hold exactly one is accepted: the one sealing the present authority and the present evidence of every moment, each as passed, if all moments capture and the gates are clear |
| `AcceptanceSeal.AcceptedMomentsPassIff` | src/vfx_harness/agents/acceptance_stop.py:475-519 | The verdicts accepted are those of the outcome: every moment's own record passes if and only if the outcome was sealed with the verdicts of its evidence, as compiling does |
| `AcceptanceSeal.MomentCaptureIff` | src/vfx_harness/agents/acceptance_stop.py:291-328 | A moment captures exactly when both files are readable, its record is valid for the rendered bytes, and it is of the selected frame and reference |
| `AcceptanceSeal.UnchangedEvidenceMeansSameFacts` | src/vfx_harness/agents/acceptance_stop.py:392-417 | A fresh capture repeats the sealed one exactly when every moment still has the same render and reference bytes and the same measured facts |
| `AcceptanceSeal.EvidenceCurrentIff` | src/vfx_harness/agents/acceptance_stop.py:475-519 | The re-verification loop accepts the sealed moments exactly when capturing again gives them |
| `AcceptanceSeal.CapturesPointwise` | src/vfx_harness/agents/acceptance_stop.py:103-143 | Captures exist exactly when moments are selectable, ids line up in order and each moment captures; then they are the moments' captures in order |

## Left out

- Artifact policy: the walrus form, augmented and annotated assignment, function definitions, comprehensions and unpacking targets; the denylists of names, attributes, output targets, dunders and node types; the order and de-duplication of reported lines; the worker's builtins; confinement of `json` handles (the escape check covers bpy only).
- `ArtifactPolicy.AcceptedProgramsAreSound`: call results are plain values, as the policy itself assumes, so objects a bpy call returns are not tracked.
- EnvironmentRecovery.OnlyIdentityRefusals: histories of several attempts sharing one key are not modelled.
- Environment recovery: resolving the attempt from its files, the field schemas of receipts and commits, and `evaluate_environment_recovery`, which only compares values.
- Run driver: dry runs, single-pass runs, the first global plan and `_finish_run`; the selected DAG is read once per pass; builders run without `--force`.
- `RunController.RunController.Dispatch`: exceptions of `evaluate_rematerialization` and the adapter-failure report; runs of one shot are taken one at a time, since attempts are read before the key's lock is taken.
- Run loop: `RunLoop` takes controllers that do not die; deaths are the subject of `DispatchRecovery`.
- Media publication: chunked copying and partial writes, a file changed in place while it is read, the stat comparison within one read of staged or restored bytes, and a process killed in the middle of the call; `os.replace` between two names of one file, which a staged file is not.
- Final render snapshot: asset trees, construction dependencies, evidence files, decision inputs, the manifest and trusted-directory checks.
- Lock order: shared and exclusive modes are arbitrary per lock; lock files and process death (which only releases locks) are not modelled.
- Token refresh: the separate CLI's own lock, file modes, the claims parser; account ids are compared as opaque values and do not change with a refresh; a login is one atomic write.
- Flood fill: reading and writing images, the RGBA merge and the coverage log.
- Box feasibility: rounding of the reported objective, box and readings, binary floating point, the order of the binding rows, and the camera helpers.
- Acceptance: field-shape and text validation of moment records, rendering and scoring, ledger writes, `reconcile`, stop compilation, and repair routing, a grouping of failing axes by owner that would only add easy members.
- Prompts, preflight, reports, asset downloads and everything else that is text or I/O.
