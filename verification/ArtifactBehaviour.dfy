/**
  What accepted artifact scripts do, without the bookkeeping of the analysis.

  Putting one more accepted expression in front of an accepted script keeps it harmless exactly when the policy takes
  the name `bpy` for a bpy handle and refuses `bpy.utils`: these two probes decide for all expressions and all runs.
  They fail when an import or an alias hides the handle that the worker binds, and then some accepted script does what
  the policy forbids.
 */
module ArtifactBehaviour {
  import opened Common
  import opened ArtifactLanguage
  import opened AliasBindings
  import opened ArtifactPolicy

  /** Nothing the policy forbids, whatever the bindings say. */
  ghost predicate Harmless(ev: Event) {
    IsBpy(ev.chain) ==>
      match ev
      case Formed(chain, _) => !External(chain)
      case Called(chain, _) => !External(chain)
      case Escaped(chain, _, use) => chain == FRAME_CURRENT && use.Argument? && use.callee == Name("int") && use.sole
  }

  /** Some run of the program does `ev`. */
  ghost predicate Does(program: seq<Stmt>, ev: Event) {
    exists run: seq<Config>, i: nat ::
      Run(program, run) && i < |run| && run[i].todo != [] && ev in StmtEvents(run[i].todo[0], run[i].env)
  }

  ghost predicate Behaves(program: seq<Stmt>) {
    forall ev | Does(program, ev) :: Harmless(ev)
  }

  lemma FirstStatementDoes(program: seq<Stmt>, ev: Event)
    requires program != [] && ev in StmtEvents(program[0], WORKER_NAMESPACE)
    ensures Does(program, ev)
  {
    var start := [Config(program, WORKER_NAMESPACE)];
    assert Run(program, start) && start[0].todo != [];
  }

  /** A program whose worker namespace is accounted for, possibly through stand-ins, does nothing forbidden. */
  lemma AccountedProgramsBehave(program: seq<Stmt>, b: Bindings, k: set<Chain>)
    requires Within(ImportSeed(program, map[]), b) && Closed(AliasNodes(program), b)
    requires Violations(program, b) == {} && StandIns(k) && EnvAccounted(WORKER_NAMESPACE, b, k)
    ensures Behaves(program)
  {
    SeedBindsImports(program, map[], b);
    forall ev | Does(program, ev)
      ensures Harmless(ev)
    {
      var run: seq<Config>, i: nat :|
        Run(program, run) && i < |run| && run[i].todo != [] && ev in StmtEvents(run[i].todo[0], run[i].env);
      RunStaysSafe(program, b, run, i, k);
      AcceptedParts(run[i].todo, b);
      AcceptedStmtIsSafe(run[i].todo[0], run[i].env, b, k);
      assert SafeEvent(ev, b, k);
      RefusedIff(ev.chain);
    }
  }

  /** One more expression in front changes neither bindings nor acceptance. */
  lemma InFront(e: Expr, program: seq<Stmt>, b: Bindings)
    ensures ImportSeed([Evaluated(e)] + program, map[]) == ImportSeed(program, map[])
    ensures AliasNodes([Evaluated(e)] + program) == AliasNodes(program)
    ensures Violations([Evaluated(e)] + program, b) == ExprViolations(e, PLAIN_USE, b) + Violations(program, b)
  {
    var longer := [Evaluated(e)] + program;
    assert longer[1..] == program;
    assert [e][1..] == [];
    assert UsedViolations([e], PLAIN_USE, b) == ExprViolations(e, PLAIN_USE, b);
  }

  /** Listing the worker's handle is not reported when the bindings think `bpy` is something else. */
  lemma UnknownRootEscapes(program: seq<Stmt>, b: Bindings)
    requires !exists c | c in Held(b, "bpy") :: IsBpy(c)
    ensures var e := Op([Name("bpy")]);
            ExprViolations(e, PLAIN_USE, b) == {} && !Behaves([Evaluated(e)] + program)
  {
    var bpy := Name("bpy");
    var e := Op([bpy]);
    assert [bpy][1..] == [] && [e][1..] == [];
    assert ExprViolations(bpy, PLAIN_USE, b) == {};
    assert UsedViolations([bpy], PLAIN_USE, b) == {};
    var longer := [Evaluated(e)] + program;
    var ev := Escaped(["bpy"], bpy, Operand);
    assert ev in EscapeEvent(bpy, Operand, WORKER_NAMESPACE);
    assert ev in UsedEvents([bpy], None, Operand, WORKER_NAMESPACE);
    assert ev in Events(e, None, WORKER_NAMESPACE);
    assert ev in UsedEvents([e], None, Discarded, WORKER_NAMESPACE);
    FirstStatementDoes(longer, ev);
    assert ["bpy"] != FRAME_CURRENT by { assert |["bpy"]| != |FRAME_CURRENT|; }
    assert !Harmless(ev);
  }

  const BPY: Expr := Name("bpy")
  const BPY_UTILS: Expr := Attr(BPY, "utils")

  lemma CallOfUtilsIsAccepted(b: Bindings)
    requires ChainViolations(BPY_UTILS, b) == {}
    ensures ExprViolations(Call(BPY_UTILS, [], []), PLAIN_USE, b) == {}
  {
    assert ExprViolations(BPY, AttributeBase, b) == {};
    assert ExprViolations(BPY_UTILS, Callee, b) == {};
  }

  lemma CallOfUtilsForms()
    ensures Formed(["bpy", "utils"], BPY_UTILS) in StmtEvents(Evaluated(Call(BPY_UTILS, [], [])), WORKER_NAMESPACE)
    ensures !Harmless(Formed(["bpy", "utils"], BPY_UTILS))
  {
    var e := Call(BPY_UTILS, [], []);
    var ev := Formed(["bpy", "utils"], BPY_UTILS);
    assert Evaluate(BPY_UTILS, WORKER_NAMESPACE) == Handle(["bpy", "utils"]);
    assert ev in OwnEvent(BPY_UTILS, WORKER_NAMESPACE);
    assert ev in Events(e, None, WORKER_NAMESPACE);
    assert ev in UsedEvents([e], None, Discarded, WORKER_NAMESPACE);
    assert ["bpy", "utils"][..2] == ["bpy", "utils"];
  }

  /** Calling `bpy.utils` is not reported when no chain of `bpy` makes it a refused one. */
  lemma UnrefusedUtilsIsFormed(program: seq<Stmt>, b: Bindings)
    requires ChainViolations(BPY_UTILS, b) == {}
    ensures var e := Call(BPY_UTILS, [], []);
            ExprViolations(e, PLAIN_USE, b) == {} && !Behaves([Evaluated(e)] + program)
  {
    var e := Call(BPY_UTILS, [], []);
    CallOfUtilsIsAccepted(b);
    CallOfUtilsForms();
    FirstStatementDoes([Evaluated(e)] + program, Formed(["bpy", "utils"], BPY_UTILS));
    MisbehavesBy([Evaluated(e)] + program, Formed(["bpy", "utils"], BPY_UTILS));
  }

  // ---- stand-ins for the missing chain -----------------------------------------------------------------

  function TrackedOf(b: Bindings): set<Chain> {
    set c | c in Held(b, "bpy") && Tracked(c)
  }

  /** No operator is called `ops` or `utils`: the first is too short, the second starts like none of them. */
  predicate OperatorLike(operator: string) {
    |operator| >= 4 && operator[0] != 'u'
  }

  lemma ShapeOperators(operator: string)
    requires || AllowedOperator("curve", operator) || AllowedOperator("surface", operator)
             || AllowedOperator("pose", operator)
    ensures OperatorLike(operator)
  {
  }

  lemma MeshOperators(operator: string)
    requires AllowedOperator("mesh", operator) || AllowedOperator("rigidbody", operator)
    ensures OperatorLike(operator)
  {
  }

  lemma ObjectOperators(operator: string)
    requires AllowedOperator("object", operator) || AllowedOperator("transform", operator)
    ensures OperatorLike(operator)
  {
  }

  lemma OperatorNames(family: string, operator: string)
    requires AllowedOperator(family, operator)
    ensures operator != "ops" && operator != "utils"
  {
    if family in {"curve", "surface", "pose"} {
      ShapeOperators(operator);
    } else if family in {"mesh", "rigidbody"} {
      MeshOperators(operator);
    } else {
      ObjectOperators(operator);
    }
  }

  lemma {:induction false} PassedAt(h: Chain, k: set<Chain>, i: nat)
    requires Passed(h, k) && 2 <= i <= |h|
    ensures LetPass(h[..i], k)
    decreases |h|
  {
    if i == |h| {
      assert h[..i] == h;
    } else {
      PassedAt(h[..|h| - 1], k, i);
      assert h[..|h| - 1][..i] == h[..i];
    }
  }

  /** A chain that would be refused with `utils` behind it lets nothing pass that `bpy` itself would not. */
  lemma ShieldLetsNothingPass(c: Chain, h: Chain, k: set<Chain>)
    requires c in k && c != [] && Refused(c + ["utils"]) && c != ["bpy"]
    requires IsBpy(h) && Passed(h, k) && |h| >= 2
    ensures !Refused(h)
  {
    PassedAt(h, k, 2);
    PassedAt(h, k, |h|);
    assert h[..2][1..] == [h[1]] && h[..|h|] == h;
    assert !Refused(c + [h[1]]) && !Refused(c + h[1..]);
    if c[0] == "json" {
      JsonPasses(c, h);
    } else {
      ShieldIsBpy(c, h);
    }
  }

  lemma JsonPasses(c: Chain, h: Chain)
    requires c != [] && c[0] == "json" && IsBpy(h) && |h| >= 2
    requires !Refused(c + [h[1]]) && !Refused(c + h[1..])
    ensures !Refused(h)
  {
    var s, t := c + [h[1]], c + h[1..];
    assert s[0] == "json" && s[|s| - 1] == h[1];
    assert t[0] == "json" && t[|t| - 1] == h[|h| - 1];
    assert h[1] == "dumps" && h[|h| - 1] == "dumps";
    assert |"dumps"| == |"utils"| && "dumps"[0] != "utils"[0] && |"dumps"| != |"ops"| && |"dumps"| != |"load"|;
  }

  lemma HarmlessStart(h: Chain)
    requires IsBpy(h) && |h| >= 2 && h[1] != "ops" && h[1] != "utils" && h[|h| - 1] != "load"
    ensures !Refused(h)
  {
    assert "json" != "bpy" by { assert |"json"| != |"bpy"|; }
    assert h[..2] == [h[0], h[1]];
    if |h| >= 3 { assert h[..3] == [h[0], h[1], h[2]]; }
  }

  /** A bpy chain that is refused with `utils` but not with `more` behind it is an operator family. */
  lemma FamilyOnly(c: Chain, more: Chain)
    requires IsBpy(c) && |c| >= 2 && Refused(c + ["utils"]) && more != [] && !Refused(c + more)
    ensures |c| == 3 && c[1] == "ops" && AllowedOperator(c[2], more[0])
  {
    var s, t := c + ["utils"], c + more;
    assert "json" != "bpy" by { assert |"json"| != |"bpy"|; }
    assert "utils" != "load" && "utils" != "render" by { assert |"utils"| != |"load"| && |"utils"| != |"render"|; }
    assert s[..2] == c[..2] == t[..2] && c[..2] == [c[0], c[1]];
    assert s[|s| - 1] == "utils";
    if |c| >= 3 { assert s[..3] == c[..3] == t[..3]; }
  }

  /** Past two names a bpy chain is refused whatever follows, or it is an operator family. */
  lemma ShieldIsBpy(c: Chain, h: Chain)
    requires c != [] && c[0] != "json" && c != ["bpy"] && Refused(c + ["utils"])
    requires IsBpy(h) && |h| >= 2 && !Refused(c + h[1..])
    ensures !Refused(h)
  {
    var t := c + h[1..];
    assert IsBpy(c) by {
      assert (c + ["utils"])[0] == c[0];
      assert (c + ["utils"])[..2][0] == c[0];
    }
    assert c != [c[0]] ==> |c| >= 2;
    FamilyOnly(c, h[1..]);
    OperatorNames(c[2], h[1]);
    assert t[|t| - 1] == h[|h| - 1] && IsBpy(t);
    HarmlessStart(h);
  }

  lemma ShieldStandsIn(b: Bindings)
    requires MayBeBpy(BPY, b) && ChainViolations(BPY_UTILS, b) != {} && !RootKnown(b)
    ensures StandIns(TrackedOf(b)) && EnvAccounted(WORKER_NAMESPACE, b, TrackedOf(b))
  {
    var k := TrackedOf(b);
    var c := RefusedWithUtils(b);
    forall h | IsBpy(h) && Passed(h, k)
      ensures !Refused(h)
    {
      if |h| >= 2 { ShieldLetsNothingPass(c, h, k); } else { assert h == ["bpy"]; }
    }
    ShieldIsNoFrame(c);
    var d :| d in Held(b, "bpy") && IsBpy(d);
    assert d in k;
    NamespaceStandsIn(b, k);
  }

  lemma RefusedWithUtils(b: Bindings) returns (c: Chain)
    requires ChainViolations(BPY_UTILS, b) != {} && !RootKnown(b)
    ensures c in TrackedOf(b) && Refused(c + ["utils"]) && c != ["bpy"]
  {
    var v :| v in ChainViolations(BPY_UTILS, b);
    var full :| full in Resolved(BPY_UTILS, b) && Refused(full);
    c := ResolvedSplits(BPY_UTILS, b, full);
    assert PathOf(BPY) == Some(Path("bpy", []));
    assert [] + ["utils"] == ["utils"];
    RefusedIsTracked(c);
  }

  lemma RefusedIsTracked(c: Chain)
    requires Refused(c + ["utils"])
    ensures Tracked(c)
  {
    var s := c + ["utils"];
    assert |"utils"| != |"bpy"| && |"utils"| != |"json"|;
    assert c == [] ==> s == ["utils"];
    if |s| >= 2 { assert s[..2][0] == s[0]; }
    if |s| >= 3 { assert s[..3][0] == s[0]; }
  }

  lemma FramePrefixIsNotRefused(c: Chain)
    requires c <= FRAME_CURRENT && |c| >= 2
    ensures !Refused(c + ["utils"])
  {
    var s := c + ["utils"];
    assert s[0] == "bpy" && s[1] == "context" && s[|s| - 1] == "utils";
    assert |"context"| != |"ops"| && |"context"| != |"utils"| && |"utils"| != |"load"| && |"bpy"| != |"json"|;
    assert s[..2][1] == s[1] && s[..3][1] == s[1];
  }

  /** A chain that is refused with `utils` behind it is no prefix of the frame read. */
  lemma ShieldIsNoFrame(c: Chain)
    requires c != ["bpy"] && c != [] && Refused(c + ["utils"])
    ensures !(c <= FRAME_CURRENT)
  {
    assert |c| == 1 ==> c == [c[0]];
    if c <= FRAME_CURRENT { FramePrefixIsNotRefused(c); }
  }

  lemma NamespaceStandsIn(b: Bindings, k: set<Chain>)
    requires k != {} && k <= Held(b, "bpy")
    ensures EnvAccounted(WORKER_NAMESPACE, b, k)
  {
    forall c | c in k
      ensures c + ["bpy"][1..] in Held(b, "bpy")
    {
      assert c + ["bpy"][1..] == c;
    }
    assert Accounted(["bpy"], Held(b, "bpy"), k);
    assert !Refused(["bpy"]);
  }

  /** Behaviour alone, for every accepted program: putting any accepted expression in front keeps it harmless exactly
      when the policy takes `bpy` for a bpy handle and refuses `bpy.utils`. */
  lemma BehavesIff(program: seq<Stmt>, b: Bindings)
    requires Within(ImportSeed(program, map[]), b) && Closed(AliasNodes(program), b) && Violations(program, b) == {}
    ensures (forall e | ExprViolations(e, PLAIN_USE, b) == {} :: Behaves([Evaluated(e)] + program))
            <==> MayBeBpy(BPY, b) && ChainViolations(BPY_UTILS, b) != {}
  {
    if MayBeBpy(BPY, b) && ChainViolations(BPY_UTILS, b) != {} {
      var k := if RootKnown(b) then {} else TrackedOf(b);
      if RootKnown(b) { NamespaceSafeIff(b); } else { ShieldStandsIn(b); }
      forall e | ExprViolations(e, PLAIN_USE, b) == {}
        ensures Behaves([Evaluated(e)] + program)
      {
        InFront(e, program, b);
        AccountedProgramsBehave([Evaluated(e)] + program, b, k);
      }
    } else if MayBeBpy(BPY, b) {
      UnrefusedUtilsIsFormed(program, b);
    } else {
      UnknownRootEscapes(program, b);
    }
  }

  /** Knowing the root is enough. */
  lemma KnownRootPasses(b: Bindings)
    requires RootKnown(b)
    ensures MayBeBpy(BPY, b) && ChainViolations(BPY_UTILS, b) != {}
  {
    assert ["bpy"] in Resolved(BPY, b) && IsBpy(["bpy"]);
    assert ["bpy"] + ["utils"] in Resolved(BPY_UTILS, b);
    assert ["bpy", "utils"][..2] == ["bpy", "utils"];
    assert RefusedChain(BPY_UTILS, ["bpy"] + ["utils"]) in ChainViolations(BPY_UTILS, b);
  }

  // ---- a script that behaves although its root is unknown ---------------------------------------------

  const MESH: Expr := Attr(Attr(Name("y"), "ops"), "mesh")

  /** `import bpy as y`, then `bpy = y.ops.mesh`. */
  const FAMILY_SCRIPT: seq<Stmt> := [Import(Module(["bpy"], Some("y")))] + [HIDE]

  const FAMILY_BINDINGS: Bindings := map["y" := {["bpy"]}, "bpy" := {["bpy"] + ["ops"] + ["mesh"]}]

  lemma FamilyChains()
    ensures Resolved(MESH, FAMILY_BINDINGS) == {["bpy"] + ["ops"] + ["mesh"]}
    ensures ExprViolations(MESH, AliasValue, FAMILY_BINDINGS) == {}
  {
    var b := FAMILY_BINDINGS;
    var ops := Attr(Name("y"), "ops");
    var c, d := ["bpy"] + ["ops"], ["bpy"] + ["ops"] + ["mesh"];
    assert Resolved(Name("y"), b) == {["bpy"]};
    assert Resolved(ops, b) == {c};
    assert Resolved(MESH, b) == {d};
    assert |"ops"| != |"utils"| && |"mesh"| != |"render"| && |"bpy"| != |"json"| && |"ops"| != |"load"|;
    assert "mesh"[0] != "load"[0];
    assert c[..2][1] == "ops" && d[..2][1] == "ops" && d[..3][2] == "mesh";
    assert !Refused(c) && !Refused(d);
    assert ChainViolations(ops, b) == {} && ChainViolations(MESH, b) == {};
    assert ExprViolations(ops, AttributeBase, b) == {};
  }

  const HIDE: Stmt := Assign([NameTarget("bpy")], MESH)

  lemma HideIsClosed()
    ensures AliasNodes([HIDE]) == [AliasNode(["bpy"], MESH)]
    ensures Closed(AliasNodes([HIDE]), FAMILY_BINDINGS)
  {
    var targets := [NameTarget("bpy")];
    var rest: seq<Stmt> := [];
    var none: seq<Target> := [];
    assert targets[1..] == none && [HIDE][1..] == rest && [HIDE][0] == Assign(targets, MESH);
    assert TargetNames(targets) == ["bpy"] + TargetNames(none) == ["bpy"];
    assert AliasNodes(rest) == [];
    assert AliasNodes([HIDE]) == [AliasNode(TargetNames(targets), MESH)] + AliasNodes(rest);
    FamilyChains();
  }

  lemma HideIsAccepted()
    ensures Violations([HIDE], FAMILY_BINDINGS) == {}
  {
    var targets := [NameTarget("bpy")];
    var rest: seq<Stmt> := [];
    assert targets[1..] == [] && [HIDE][1..] == rest && [HIDE][0] == Assign(targets, MESH);
    FamilyChains();
    assert AllNames(targets) && TargetViolations(targets, FAMILY_BINDINGS) == {};
    assert StmtViolations(HIDE, FAMILY_BINDINGS) == {};
    assert Violations(rest, FAMILY_BINDINGS) == {};
  }

  lemma AliasedImport(b: Bindings)
    requires b == map["y" := {["bpy"]}]
    ensures !ImportDenied(Module(["bpy"], Some("y"))) && WithImport(Module(["bpy"], Some("y")), map[]) == b
  {
    var none: Bindings := map[];
    var known: set<Chain> := {};
    var spec := Module(["bpy"], Some("y"));
    assert !ImportDenied(spec) && ImportBinding(spec) == ("y", ["bpy"]);
    assert known + {["bpy"]} == {["bpy"]};
    assert AddBinding(none, "y", ["bpy"]) == none["y" := known + {["bpy"]}];
  }

  lemma FamilyIsAccepted()
    ensures Within(ImportSeed(FAMILY_SCRIPT, map[]), FAMILY_BINDINGS)
    ensures Closed(AliasNodes(FAMILY_SCRIPT), FAMILY_BINDINGS)
    ensures Violations(FAMILY_SCRIPT, FAMILY_BINDINGS) == {}
  {
    var b: Bindings := map["y" := {["bpy"]}];
    HideIsClosed();
    HideIsAccepted();
    AliasedImport(b);
    assert FAMILY_SCRIPT[1..] == [HIDE] && [HIDE][1..] == [];
    assert ImportSeed([HIDE], b) == b;
  }

  /** Knowing the root is not necessary: this script hides the worker's handle behind an operator family, which has no
      operator of the name of anything refused, and every accepted expression in front of it stays harmless. */
  lemma FamilyHidesNothing()
    ensures Within(ImportSeed(FAMILY_SCRIPT, map[]), FAMILY_BINDINGS)
    ensures Closed(AliasNodes(FAMILY_SCRIPT), FAMILY_BINDINGS) && Violations(FAMILY_SCRIPT, FAMILY_BINDINGS) == {}
    ensures !Sound(FAMILY_SCRIPT, FAMILY_BINDINGS)
    ensures forall e | ExprViolations(e, PLAIN_USE, FAMILY_BINDINGS) == {} :: Behaves([Evaluated(e)] + FAMILY_SCRIPT)
  {
    var b := FAMILY_BINDINGS;
    var c := ["bpy"] + ["ops"] + ["mesh"];
    FamilyIsAccepted();
    assert |["bpy"]| != |c|;
    SoundIff(FAMILY_SCRIPT, b);
    assert c in Resolved(BPY, b) && IsBpy(c);
    FamilyRefusesUtils(c);
    assert c + ["utils"] in Resolved(BPY_UTILS, b);
    assert RefusedChain(BPY_UTILS, c + ["utils"]) in ChainViolations(BPY_UTILS, b);
    BehavesIff(FAMILY_SCRIPT, b);
  }

  lemma FamilyRefusesUtils(c: Chain)
    requires c == ["bpy"] + ["ops"] + ["mesh"]
    ensures Refused(c + ["utils"])
  {
    var s := c + ["utils"];
    assert s[..2] == ["bpy", "ops"] && s[2] == "mesh" && s[3] == "utils";
    if AllowedOperator("mesh", "utils") { OperatorNames("mesh", "utils"); }
  }

  // ---- a script that renders ------------------------------------------------------------------------------

  const RENDER: Expr := Attr(Attr(Attr(Name("bpy"), "ops"), "render"), "render")

  /** `bpy.ops.render.render()`, then `import math as bpy`. */
  const HIDDEN_RENDER: seq<Stmt> := [Evaluated(Call(RENDER, [], []))] + [Import(Module(["math"], Some("bpy")))]

  const HIDING_BINDINGS: Bindings := map["bpy" := {["math"]}]

  lemma HiddenRenderIsAccepted()
    ensures ImportSeed(HIDDEN_RENDER, map[]) == HIDING_BINDINGS && AliasNodes(HIDDEN_RENDER) == []
    ensures Violations(HIDDEN_RENDER, HIDING_BINDINGS) == {}
  {
    var call := Call(RENDER, [], []);
    var tail := [Import(Module(["math"], Some("bpy")))];
    assert tail[1..] == [];
    MathImport(HIDING_BINDINGS);
    MathChains(HIDING_BINDINGS);
    assert ImportSeed(tail, map[]) == HIDING_BINDINGS;
    assert AliasNodes(tail) == [] && Violations(tail, HIDING_BINDINGS) == {};
    InFront(call, tail, HIDING_BINDINGS);
  }

  /** The policy accepts a script that renders: the import that hides the handle need not even be reached. */
  lemma ImportAfterUseHidesRender()
    ensures ImportSeed(HIDDEN_RENDER, map[]) == HIDING_BINDINGS && Closed(AliasNodes(HIDDEN_RENDER), HIDING_BINDINGS)
    ensures Violations(HIDDEN_RENDER, HIDING_BINDINGS) == {}
    ensures Does(HIDDEN_RENDER, Formed(["bpy", "ops", "render", "render"], RENDER))
    ensures Refused(["bpy", "ops", "render", "render"]) && !Behaves(HIDDEN_RENDER)
  {
    HiddenRenderIsAccepted();
    RenderIsFormed();
    RenderIsRefused();
    FirstStatementDoes(HIDDEN_RENDER, Formed(["bpy", "ops", "render", "render"], RENDER));
    MisbehavesBy(HIDDEN_RENDER, Formed(["bpy", "ops", "render", "render"], RENDER));
  }

  lemma RenderIsRefused()
    ensures Refused(["bpy", "ops", "render", "render"])
    ensures !Harmless(Formed(["bpy", "ops", "render", "render"], RENDER))
  {
    assert ["bpy", "ops", "render", "render"][..3] == ["bpy", "ops", "render"];
  }

  lemma MisbehavesBy(program: seq<Stmt>, ev: Event)
    requires Does(program, ev) && !Harmless(ev)
    ensures !Behaves(program)
  {
  }

  lemma MathImport(b: Bindings)
    requires b == map["bpy" := {["math"]}]
    ensures !ImportDenied(Module(["math"], Some("bpy"))) && WithImport(Module(["math"], Some("bpy")), map[]) == b
  {
    var none: Bindings := map[];
    assert |"math"| != |"bpy"|;
    assert Root(["math"]) == "math" && !ImportDenied(Module(["math"], Some("bpy")));
    var known: set<Chain> := {};
    assert known + {["math"]} == {["math"]};
    assert AddBinding(none, "bpy", ["math"]) == none["bpy" := known + {["math"]}];
  }

  lemma RenderIsFormed()
    ensures Formed(["bpy", "ops", "render", "render"], RENDER) in StmtEvents(HIDDEN_RENDER[0], WORKER_NAMESPACE)
  {
    var ops := Attr(Name("bpy"), "ops");
    var inner := Attr(ops, "render");
    var render := RENDER;
    var call := Call(render, [], []);
    assert Evaluate(ops, WORKER_NAMESPACE) == Handle(["bpy", "ops"]);
    assert Evaluate(inner, WORKER_NAMESPACE) == Handle(["bpy", "ops", "render"]);
    assert Evaluate(render, WORKER_NAMESPACE) == Handle(["bpy", "ops", "render", "render"]);
    var ev := Formed(["bpy", "ops", "render", "render"], render);
    assert ev in OwnEvent(render, WORKER_NAMESPACE);
    assert ev in Events(render, None, WORKER_NAMESPACE);
    assert ev in Events(call, None, WORKER_NAMESPACE);
    assert ev in UsedEvents([call], None, Discarded, WORKER_NAMESPACE);
  }

  /** Nothing the policy knows starts with `math`. */
  lemma MathChainIsAllowed(e: Expr, b: Bindings, c: Chain)
    requires Resolved(e, b) == {c} && c != [] && c[0] == "math"
    ensures ChainViolations(e, b) == {}
  {
    assert |"math"| != |"bpy"| && "math"[0] != "json"[0];
    if |c| >= 2 { assert c[..2][0] == c[0]; }
    if |c| >= 3 { assert c[..3][0] == c[0]; }
    assert !Refused(c);
  }

  lemma MathChains(b: Bindings)
    requires b == map["bpy" := {["math"]}]
    ensures ExprViolations(Call(RENDER, [], []), PLAIN_USE, b) == {}
  {
    var ops := Attr(Name("bpy"), "ops");
    var inner := Attr(ops, "render");
    var render := Attr(inner, "render");
    assert Resolved(Name("bpy"), b) == {["math"]};
    assert Resolved(ops, b) == {["math"] + ["ops"]};
    assert Resolved(inner, b) == {["math"] + ["ops"] + ["render"]};
    assert Resolved(render, b) == {["math"] + ["ops"] + ["render"] + ["render"]};
    MathChainIsAllowed(ops, b, ["math"] + ["ops"]);
    MathChainIsAllowed(inner, b, ["math"] + ["ops"] + ["render"]);
    MathChainIsAllowed(render, b, ["math"] + ["ops"] + ["render"] + ["render"]);
    assert ExprViolations(ops, AttributeBase, b) == {};
    assert ExprViolations(inner, AttributeBase, b) == {};
    assert ExprViolations(render, Callee, b) == {};
  }
}
