/**
  The artifact policy over the alias bindings, and when it is sound.

  Scripts start with `bpy` bound by the worker.  If the collector reports nothing then, in every run, no
  refused bpy chain is ever formed, every handle that is formed is among the chains resolved for its
  expression, and no bpy handle is used as a value except the frame read inside `frame_set(int(...))`
  - provided the bindings know that `bpy` may be the live handle.  They do unless an import or an alias
  rebinds the name and nothing gives it its own chain back: `SoundIff`.
 */
module ArtifactPolicy {
  import opened Common
  import opened ArtifactLanguage
  import opened AliasBindings
  import opened AliasLeastness
  import opened AliasOrders

  const ALLOWED_IMPORT_ROOTS: set<string> := {"bmesh", "bpy", "json", "math", "mathutils"}

  const ALLOWED_BPY_OPERATORS: map<string, set<string>> := map[
    "curve" := {
      "primitive_bezier_circle_add", "primitive_bezier_curve_add", "primitive_nurbs_circle_add",
      "primitive_nurbs_curve_add", "primitive_nurbs_path_add"
    },
    "mesh" := {
      "delete", "extrude_edges_move", "extrude_faces_move", "extrude_region_move", "fill", "inset", "merge",
      "primitive_circle_add", "primitive_cone_add", "primitive_cube_add", "primitive_cylinder_add",
      "primitive_grid_add", "primitive_ico_sphere_add", "primitive_monkey_add", "primitive_plane_add",
      "primitive_torus_add", "primitive_uv_sphere_add", "select_all", "subdivide"
    },
    "object" := {
      "armature_add", "camera_add", "convert", "delete", "duplicate", "editmode_toggle", "effector_add",
      "empty_add", "join", "light_add", "metaball_add", "mode_set", "modifier_apply", "parent_set",
      "select_all", "shade_flat", "shade_smooth", "shade_smooth_by_angle", "text_add", "transform_apply",
      "visual_transform_apply"
    },
    "pose" := {"select_all", "transforms_clear"},
    "rigidbody" := {"constraint_add", "object_add", "object_remove"},
    "surface" := {
      "primitive_nurbs_circle_add", "primitive_nurbs_cylinder_add", "primitive_nurbs_sphere_add",
      "primitive_nurbs_surface_curve_add", "primitive_nurbs_surface_cylinder_add",
      "primitive_nurbs_surface_sphere_add", "primitive_nurbs_surface_torus_add", "primitive_nurbs_torus_add"
    },
    "transform" := {"resize", "rotate", "translate"}
  ]

  const FRAME_CURRENT: Chain := ["bpy", "context", "scene", "frame_current"]
  const FRAME_SET: Chain := ["bpy", "context", "scene", "frame_set"]

  predicate AllowedOperator(family: string, operator: string) {
    family in ALLOWED_BPY_OPERATORS && operator in ALLOWED_BPY_OPERATORS[family]
  }

  /** A chain that acquires an external capability. */
  predicate Refused(c: Chain) {
    || (|c| >= 3 && c[..3] == ["bpy", "ops", "render"])
    || (|c| >= 2 && IsBpy(c) && c[|c| - 1] == "load")
    || (|c| >= 2 && c[..2] == ["bpy", "utils"])
    || (|c| >= 4 && c[..2] == ["bpy", "ops"] && !AllowedOperator(c[2], c[3]))
    || (c != [] && c[0] == "json" && c[|c| - 1] != "dumps")
  }

  /** The same name by name: loading external data, Blender's utilities, rendering, an operator outside the vocabulary,
      and anything of `json` but `dumps`. */
  predicate External(c: Chain) {
    if c == [] then false
    else if c[0] == "json" then c[|c| - 1] != "dumps"
    else if c[0] != "bpy" || |c| == 1 then false
    else
      || c[|c| - 1] == "load"
      || c[1] == "utils"
      || (c[1] == "ops" && |c| >= 3 && (c[2] == "render" || (|c| >= 4 && !AllowedOperator(c[2], c[3]))))
  }

  lemma RefusedIff(c: Chain)
    ensures Refused(c) <==> External(c)
  {
    assert |"json"| != |"bpy"|;
    if |c| >= 2 { assert c[..2] == [c[0], c[1]]; }
    if |c| >= 3 { assert c[..3] == [c[0], c[1], c[2]]; }
  }

  datatype Violation =
    | DeniedImport(spec: ImportSpec)
    | RefusedChain(e: Expr, chain: Chain)
    | AliasEscape(e: Expr)

  // ---- imports --------------------------------------------------------------------------

  predicate ImportDenied(spec: ImportSpec) {
    match spec
    case Module(path, _) => Root(path) !in ALLOWED_IMPORT_ROOTS || (Root(path) == "bpy" && path != ["bpy"])
    case Member(level, path, name, _) =>
      level != 0 || path == [] || Root(path) !in ALLOWED_IMPORT_ROOTS || Root(path) == "bpy" || name == "*"
  }

  function AddBinding(b: Bindings, name: string, c: Chain): (r: Bindings)
    ensures Within(b, r) && name in r && c in r[name]
  {
    b[name := (if name in b then b[name] else {}) + {c}]
  }

  function WithImport(spec: ImportSpec, b: Bindings): Bindings {
    if ImportDenied(spec) then b else AddBinding(b, ImportBinding(spec).0, ImportBinding(spec).1)
  }

  /** The bindings of every admitted import, wherever it stands. */
  function ImportSeed(program: seq<Stmt>, b: Bindings): Bindings
    decreases program
  {
    if program == [] then b
    else
      var rest := program[1..];
      match program[0]
      case Import(spec) => ImportSeed(rest, WithImport(spec, b))
      case If(_, thn, els) => ImportSeed(rest, ImportSeed(els, ImportSeed(thn, b)))
      case While(_, body) => ImportSeed(rest, ImportSeed(body, b))
      case For(_, _, body) => ImportSeed(rest, ImportSeed(body, b))
      case _ => ImportSeed(rest, b)
  }

  function TargetNames(targets: seq<Target>): seq<string> {
    if targets == [] then []
    else (if targets[0].NameTarget? then [targets[0].id] else []) + TargetNames(targets[1..])
  }

  /** The assignments of a program, nested ones included. */
  function AliasNodes(program: seq<Stmt>): seq<AliasNode>
    decreases program
  {
    if program == [] then []
    else
      var rest := AliasNodes(program[1..]);
      match program[0]
      case Assign(targets, value) => [AliasNode(TargetNames(targets), value)] + rest
      case If(_, thn, els) => AliasNodes(thn) + AliasNodes(els) + rest
      case While(_, body) => AliasNodes(body) + rest
      case For(_, _, body) => AliasNodes(body) + rest
      case _ => rest
  }

  // ---- expressions ----------------------------------------------------------------------

  /** What the parents of an expression let it be used for. */
  datatype Context =
    | AttributeBase
    | Callee
    | AliasValue
    | Consumed(feedsFrameSet: bool, readsFrame: bool)

  const PLAIN_USE: Context := Consumed(false, false)

  predicate MayHoldHandle(context: Context) {
    !context.Consumed?
  }

  function ChainViolations(e: Expr, b: Bindings): set<Violation> {
    set c | c in Resolved(e, b) && Refused(c) :: RefusedChain(e, c)
  }

  predicate MayBeBpy(e: Expr, b: Bindings) {
    exists c | c in Resolved(e, b) :: IsBpy(c)
  }

  function ArgumentContext(call: Expr, context: Context, b: Bindings): Context
    requires call.Call?
  {
    var sole := |call.args| == 1 && call.keywords == [];
    Consumed(
      sole && Resolved(call.func, b) == {FRAME_SET},
      sole && call.func == Name("int") && context.Consumed? && context.feedsFrameSet)
  }

  function ExprViolations(e: Expr, context: Context, b: Bindings): set<Violation>
    decreases e, 1
  {
    match e
    case Name(_) =>
      if MayBeBpy(e, b) && !MayHoldHandle(context) then {AliasEscape(e)} else {}
    case Attr(base, _) =>
      var refused := ChainViolations(e, b);
      ExprViolations(base, AttributeBase, b)
      + (if refused != {} then refused
         else if && MayBeBpy(e, b) && !MayHoldHandle(context)
                 && !(context.readsFrame && Resolved(e, b) == {FRAME_CURRENT})
         then {AliasEscape(e)}
         else {})
    case Call(func, args, keywords) =>
      ChainViolations(func, b)
      + ExprViolations(func, Callee, b)
      + UsedViolations(args, ArgumentContext(e, context, b), b)
      + UsedViolations(keywords, PLAIN_USE, b)
    case Op(operands) => UsedViolations(operands, PLAIN_USE, b)
    case Literal => {}
  }

  function UsedViolations(es: seq<Expr>, context: Context, b: Bindings): set<Violation>
    decreases es, 0
  {
    if es == [] then {} else ExprViolations(es[0], context, b) + UsedViolations(es[1..], context, b)
  }

  // ---- statements -----------------------------------------------------------------------

  function TargetViolations(targets: seq<Target>, b: Bindings): set<Violation> {
    if targets == [] then {}
    else
      (match targets[0]
       case NameTarget(_) => {}
       case AttrTarget(base, attr) =>
         ChainViolations(Attr(base, attr), b) + ExprViolations(base, AttributeBase, b)
       case ItemTarget(base, index) => UsedViolations([base, index], PLAIN_USE, b))
      + TargetViolations(targets[1..], b)
  }

  function StmtViolations(s: Stmt, b: Bindings): set<Violation> {
    match s
    case Import(spec) => if ImportDenied(spec) then {DeniedImport(spec)} else {}
    case Assign(targets, value) =>
      ExprViolations(value, if AllNames(targets) then AliasValue else PLAIN_USE, b) + TargetViolations(targets, b)
    case Evaluated(e) => UsedViolations([e], PLAIN_USE, b)
    case Return(e) => UsedViolations([e], PLAIN_USE, b)
    case If(cond, thn, els) => UsedViolations([cond], PLAIN_USE, b) + Violations(thn, b) + Violations(els, b)
    case While(cond, body) => UsedViolations([cond], PLAIN_USE, b) + Violations(body, b)
    case For(_, iter, body) => UsedViolations([iter], PLAIN_USE, b) + Violations(body, b)
  }

  function Violations(program: seq<Stmt>, b: Bindings): set<Violation> {
    if program == [] then {} else StmtViolations(program[0], b) + Violations(program[1..], b)
  }

  // ---- soundness ------------------------------------------------------------------------

  /** No stand-in, extended as `h` extends `bpy`, is refused. */
  ghost predicate LetPass(h: Chain, k: set<Chain>)
    requires h != []
  {
    forall c | c in k :: !Refused(c + h[1..])
  }

  /** The stand-ins let every attribute of `h` pass. */
  ghost predicate Passed(h: Chain, k: set<Chain>)
    decreases |h|
  {
    |h| > 1 ==> LetPass(h, k) && Passed(h[..|h| - 1], k)
  }

  /** A handle is accounted for by being among the chains, or - when the chains `k` stand in for `bpy` itself - by each
      stand-in, extended as the handle extends `bpy`, being among them. */
  ghost predicate Accounted(h: Chain, chains: set<Chain>, k: set<Chain>) {
    h in chains || (k != {} && IsBpy(h) && Passed(h, k) && forall c | c in k :: c + h[1..] in chains)
  }

  /** Stand-ins that make up for the missing chain of `bpy`: they let no refused handle pass, one of them reports every
      escape, and one is no prefix of the frame read.  No stand-ins are needed when the chain is not missing. */
  ghost predicate StandIns(k: set<Chain>) {
    k != {} ==>
      && (forall c | c in k :: Tracked(c))
      && (forall h | IsBpy(h) && Passed(h, k) :: !Refused(h))
      && (exists c | c in k :: IsBpy(c))
      && (exists c | c in k :: !(c <= FRAME_CURRENT))
  }

  /** Every bpy handle a name holds is accounted for, and no refused one. */
  ghost predicate EnvAccounted(env: Env, b: Bindings, k: set<Chain>) {
    && (forall n | n in env && HoldsBpy(env[n]) :: Accounted(env[n].chain, Held(b, n), k) && !Refused(env[n].chain))
    && (forall n | n in env && env[n].Handle? :: env[n].chain != [])
  }

  /** Every bpy handle a name holds is one of its chains, and no refused one. */
  ghost predicate EnvSafe(env: Env, b: Bindings) {
    EnvAccounted(env, b, {})
  }

  ghost predicate SafeEvent(ev: Event, b: Bindings, k: set<Chain>) {
    IsBpy(ev.chain) ==>
      match ev
      case Formed(chain, source) => Accounted(chain, Resolved(source, b), k) && !Refused(chain)
      case Called(chain, func) => Accounted(chain, Resolved(func, b), k) && !Refused(chain)
      case Escaped(chain, _, use) =>
        && chain == FRAME_CURRENT
        && use.Argument? && use.callee == Name("int") && use.sole
        && use.enclosing.Some? && Resolved(use.enclosing.value, b) == {FRAME_SET}
  }

  ghost predicate SafeEvents(evs: set<Event>, b: Bindings, k: set<Chain>) {
    forall ev | ev in evs :: SafeEvent(ev, b, k)
  }

  /** The value of an accepted expression. */
  ghost predicate SafeValue(e: Expr, context: Context, env: Env, b: Bindings, k: set<Chain>) {
    var v := Evaluate(e, env);
    && (v.Handle? ==> v.chain != [])
    && (HoldsBpy(v) ==>
      && Accounted(v.chain, Resolved(e, b), k)
      && !Refused(v.chain)
      && (MayHoldHandle(context) || (context.readsFrame && v.chain == FRAME_CURRENT)))
  }

  ghost predicate OuterMatches(context: Context, outer: Option<Expr>, b: Bindings) {
    context.Consumed? && context.feedsFrameSet ==> outer.Some? && Resolved(outer.value, b) == {FRAME_SET}
  }

  /** A use whose escape is harmless in this context. */
  ghost predicate UseMatches(context: Context, use: Use, b: Bindings) {
    context.Consumed? && context.readsFrame ==>
      && use.Argument? && use.callee == Name("int") && use.sole
      && use.enclosing.Some? && Resolved(use.enclosing.value, b) == {FRAME_SET}
  }

  lemma {:induction false} AcceptedExprIsSafe(e: Expr, context: Context, outer: Option<Expr>, env: Env, b: Bindings,
                                              k: set<Chain>)
    requires StandIns(k) && EnvAccounted(env, b, k)
    requires ExprViolations(e, context, b) == {} && OuterMatches(context, outer, b)
    ensures SafeValue(e, context, env, b, k)
    ensures SafeEvents(Events(e, outer, env), b, k)
    decreases e, 1
  {
    match e
    case Name(_) => AcceptedName(e, context, outer, env, b, k);
    case Attr(base, attr) =>
      AcceptedExprIsSafe(base, AttributeBase, None, env, b, k);
      AcceptedAttr(base, attr, context, env, b, k);
    case Call(func, args, keywords) =>
      CallParts(e, context, b);
      CallContexts(e, context, outer, b);
      AcceptedExprIsSafe(func, Callee, None, env, b, k);
      AcceptedUsesAreSafe(args, ArgumentContext(e, context, b), InnerCallee(e), ArgumentUse(e, outer), env, b, k);
      AcceptedUsesAreSafe(keywords, PLAIN_USE, None, Argument(func, false, outer), env, b, k);
      CallIsSafe(e, context, outer, env, b, k);
    case Op(operands) =>
      AcceptedUsesAreSafe(operands, PLAIN_USE, None, Operand, env, b, k);
    case Literal =>
  }

  lemma AcceptedName(e: Expr, context: Context, outer: Option<Expr>, env: Env, b: Bindings, k: set<Chain>)
    requires e.Name? && StandIns(k) && EnvAccounted(env, b, k) && ExprViolations(e, context, b) == {}
    ensures SafeValue(e, context, env, b, k) && SafeEvents(Events(e, outer, env), b, k)
  {
    var v := Evaluate(e, env);
    if HoldsBpy(v) { AccountedMayBeBpy(v.chain, e, b, k); }
  }

  /** Whatever accounts for a bpy handle makes the policy think of bpy. */
  lemma AccountedMayBeBpy(h: Chain, e: Expr, b: Bindings, k: set<Chain>)
    requires StandIns(k) && IsBpy(h) && Accounted(h, Resolved(e, b), k)
    ensures MayBeBpy(e, b)
  {
    if h !in Resolved(e, b) {
      var c :| c in k && IsBpy(c);
      assert c + h[1..] in Resolved(e, b) && IsBpy(c + h[1..]);
    }
  }

  /** The frame read is not mistaken for anything else. */
  lemma AccountedFrame(h: Chain, e: Expr, b: Bindings, k: set<Chain>)
    requires StandIns(k) && Accounted(h, Resolved(e, b), k) && Resolved(e, b) == {FRAME_CURRENT}
    ensures h == FRAME_CURRENT
  {
    if h !in Resolved(e, b) { ShadowsOther(h, e, b, k); }
  }

  lemma ShadowsOther(h: Chain, e: Expr, b: Bindings, k: set<Chain>)
    requires StandIns(k) && k != {} && h != [] && forall c | c in k :: c + h[1..] in Resolved(e, b)
    ensures Resolved(e, b) != {FRAME_CURRENT}
  {
    var c :| c in k && !(c <= FRAME_CURRENT);
    assert c + h[1..] in Resolved(e, b) && c <= c + h[1..];
  }

  /** An attribute that the policy lets pass keeps a handle accounted for. */
  lemma AttrAccounted(base: Expr, attr: string, h: Chain, b: Bindings, k: set<Chain>)
    requires StandIns(k) && IsBpy(h) && Accounted(h, Resolved(base, b), k)
    requires ChainViolations(Attr(base, attr), b) == {}
    ensures Accounted(h + [attr], Resolved(Attr(base, attr), b), k) && !Refused(h + [attr])
  {
    var e := Attr(base, attr);
    if h in Resolved(base, b) {
      NotRefused(e, h + [attr], b);
    } else {
      ShadowPasses(base, attr, h, b, k);
      PassedIsNotRefused(h + [attr], k);
    }
  }

  lemma NotRefused(e: Expr, c: Chain, b: Bindings)
    requires ChainViolations(e, b) == {} && c in Resolved(e, b)
    ensures !Refused(c)
  {
    assert RefusedChain(e, c) !in ChainViolations(e, b);
  }

  lemma ShadowExtends(base: Expr, attr: string, h: Chain, c: Chain, b: Bindings)
    requires h != [] && c + h[1..] in Resolved(base, b)
    ensures c + (h + [attr])[1..] in Resolved(Attr(base, attr), b)
  {
    assert (h + [attr])[1..] == h[1..] + [attr];
    assert c + (h[1..] + [attr]) == (c + h[1..]) + [attr];
  }

  lemma ShadowPasses(base: Expr, attr: string, h: Chain, b: Bindings, k: set<Chain>)
    requires h != [] && Passed(h, k)
    requires forall c | c in k :: c + h[1..] in Resolved(base, b)
    requires ChainViolations(Attr(base, attr), b) == {}
    ensures var next := h + [attr];
            Passed(next, k) && forall c | c in k :: c + next[1..] in Resolved(Attr(base, attr), b)
  {
    var next := h + [attr];
    forall c | c in k
      ensures c + next[1..] in Resolved(Attr(base, attr), b) && !Refused(c + next[1..])
    {
      ShadowExtends(base, attr, h, c, b);
      NotRefused(Attr(base, attr), c + next[1..], b);
    }
    PassesOneMore(h, attr, k);
  }

  lemma PassedIsNotRefused(h: Chain, k: set<Chain>)
    requires StandIns(k) && k != {} && IsBpy(h) && Passed(h, k)
    ensures !Refused(h)
  {
  }

  lemma PassesOneMore(h: Chain, attr: string, k: set<Chain>)
    requires h != [] && Passed(h, k) && LetPass(h + [attr], k)
    ensures Passed(h + [attr], k)
  {
    assert (h + [attr])[..|h|] == h;
  }

  lemma CallParts(e: Expr, context: Context, b: Bindings)
    requires e.Call? && ExprViolations(e, context, b) == {}
    ensures ExprViolations(e.func, Callee, b) == {}
    ensures UsedViolations(e.args, ArgumentContext(e, context, b), b) == {}
    ensures UsedViolations(e.keywords, PLAIN_USE, b) == {}
  {
  }

  lemma CallIsSafe(e: Expr, context: Context, outer: Option<Expr>, env: Env, b: Bindings, k: set<Chain>)
    requires e.Call? && SafeValue(e.func, Callee, env, b, k)
    requires SafeEvents(Events(e.func, None, env), b, k)
    requires SafeEvents(UsedEvents(e.args, InnerCallee(e), ArgumentUse(e, outer), env), b, k)
    requires SafeEvents(UsedEvents(e.keywords, None, Argument(e.func, false, outer), env), b, k)
    ensures SafeValue(e, context, env, b, k) && SafeEvents(Events(e, outer, env), b, k)
  {
  }

  lemma CallContexts(call: Expr, context: Context, outer: Option<Expr>, b: Bindings)
    requires call.Call? && OuterMatches(context, outer, b)
    ensures UseMatches(ArgumentContext(call, context, b), ArgumentUse(call, outer), b)
    ensures OuterMatches(ArgumentContext(call, context, b), InnerCallee(call), b)
  {
  }

  lemma AcceptedAttr(base: Expr, attr: string, context: Context, env: Env, b: Bindings, k: set<Chain>)
    requires ExprViolations(Attr(base, attr), context, b) == {} && StandIns(k)
    requires SafeValue(base, AttributeBase, env, b, k)
    ensures SafeValue(Attr(base, attr), context, env, b, k)
    ensures SafeEvents(OwnEvent(Attr(base, attr), env), b, k)
  {
    var e := Attr(base, attr);
    var v := Evaluate(e, env);
    if HoldsBpy(v) {
      var prefix := Evaluate(base, env).chain;
      assert IsBpy(prefix);
      assert ChainViolations(e, b) == {};
      AttrAccounted(base, attr, prefix, b, k);
      AccountedMayBeBpy(v.chain, e, b, k);
      if Resolved(e, b) == {FRAME_CURRENT} { AccountedFrame(v.chain, e, b, k); }
    }
  }

  lemma {:induction false} AcceptedUsesAreSafe(es: seq<Expr>, context: Context, outer: Option<Expr>, use: Use, env: Env,
                                               b: Bindings, k: set<Chain>)
    requires StandIns(k) && EnvAccounted(env, b, k) && UsedViolations(es, context, b) == {}
    requires context.Consumed? && OuterMatches(context, outer, b) && UseMatches(context, use, b)
    ensures SafeEvents(UsedEvents(es, outer, use, env), b, k)
    ensures !context.readsFrame ==> FirstBpy(es, env) == Plain
    decreases es, 0
  {
    if es != [] {
      AcceptedExprIsSafe(es[0], context, outer, env, b, k);
      AcceptedUsesAreSafe(es[1..], context, outer, use, env, b, k);
    }
  }

  lemma {:induction false} AcceptedTargetsAreSafe(targets: seq<Target>, env: Env, b: Bindings, k: set<Chain>)
    requires StandIns(k) && EnvAccounted(env, b, k) && TargetViolations(targets, b) == {}
    ensures SafeEvents(TargetEvents(targets, env), b, k)
  {
    if targets != [] {
      AcceptedTargetsAreSafe(targets[1..], env, b, k);
      match targets[0]
      case NameTarget(_) =>
      case AttrTarget(base, attr) =>
        AcceptedExprIsSafe(base, AttributeBase, None, env, b, k);
        AcceptedAttr(base, attr, AliasValue, env, b, k);
      case ItemTarget(base, index) =>
        AcceptedUsesAreSafe([base, index], PLAIN_USE, None, Operand, env, b, k);
    }
  }

  // ---- runs -----------------------------------------------------------------------------

  /** What the analysis establishes about a list of statements, nested ones included. */
  ghost predicate Accepted(program: seq<Stmt>, b: Bindings) {
    && Violations(program, b) == {}
    && Closed(AliasNodes(program), b)
    && ImportsBound(program, b)
  }

  ghost predicate ImportBound(spec: ImportSpec, b: Bindings) {
    ImportDenied(spec) || (ImportBinding(spec).0 in b && ImportBinding(spec).1 in b[ImportBinding(spec).0])
  }

  ghost predicate ImportsBound(program: seq<Stmt>, b: Bindings)
    decreases program
  {
    program != [] ==>
      && ImportsBound(program[1..], b)
      && match program[0]
         case Import(spec) => ImportBound(spec, b)
         case If(_, thn, els) => ImportsBound(thn, b) && ImportsBound(els, b)
         case While(_, body) => ImportsBound(body, b)
         case For(_, _, body) => ImportsBound(body, b)
         case _ => true
  }

  lemma {:induction false} ImportSeedGrows(program: seq<Stmt>, b: Bindings)
    ensures Within(b, ImportSeed(program, b))
    decreases program
  {
    if program != [] {
      var rest := program[1..];
      match program[0]
      case Import(spec) =>
        ImportSeedGrows(rest, WithImport(spec, b));
      case If(_, thn, els) =>
        ImportSeedGrows(thn, b);
        ImportSeedGrows(els, ImportSeed(thn, b));
        ImportSeedGrows(rest, ImportSeed(els, ImportSeed(thn, b)));
      case While(_, body) =>
        ImportSeedGrows(body, b);
        ImportSeedGrows(rest, ImportSeed(body, b));
      case For(_, _, body) =>
        ImportSeedGrows(body, b);
        ImportSeedGrows(rest, ImportSeed(body, b));
      case _ =>
        ImportSeedGrows(rest, b);
    }
  }

  lemma {:induction false} SeedBindsImports(program: seq<Stmt>, b: Bindings, m: Bindings)
    requires Within(ImportSeed(program, b), m)
    ensures ImportsBound(program, m) && Within(b, m)
    decreases program
  {
    ImportSeedGrows(program, b);
    if program != [] {
      var rest := program[1..];
      match program[0]
      case Import(spec) =>
        SeedBindsImports(rest, WithImport(spec, b), m);
      case If(_, thn, els) =>
        SeedBindsImports(rest, ImportSeed(els, ImportSeed(thn, b)), m);
        SeedBindsImports(els, ImportSeed(thn, b), m);
        SeedBindsImports(thn, b, m);
      case While(_, body) =>
        SeedBindsImports(rest, ImportSeed(body, b), m);
        SeedBindsImports(body, b, m);
      case For(_, _, body) =>
        SeedBindsImports(rest, ImportSeed(body, b), m);
        SeedBindsImports(body, b, m);
      case _ =>
        SeedBindsImports(rest, b, m);
    }
  }

  lemma {:induction false} ImportSeedIsWellSeeded(program: seq<Stmt>, b: Bindings)
    requires WellSeeded(b)
    ensures WellSeeded(ImportSeed(program, b))
    decreases program
  {
    if program != [] {
      var rest := program[1..];
      match program[0]
      case Import(spec) =>
        ImportSeedIsWellSeeded(rest, WithImport(spec, b));
      case If(_, thn, els) =>
        ImportSeedIsWellSeeded(thn, b);
        ImportSeedIsWellSeeded(els, ImportSeed(thn, b));
        ImportSeedIsWellSeeded(rest, ImportSeed(els, ImportSeed(thn, b)));
      case While(_, body) =>
        ImportSeedIsWellSeeded(body, b);
        ImportSeedIsWellSeeded(rest, ImportSeed(body, b));
      case For(_, _, body) =>
        ImportSeedIsWellSeeded(body, b);
        ImportSeedIsWellSeeded(rest, ImportSeed(body, b));
      case _ =>
        ImportSeedIsWellSeeded(rest, b);
    }
  }

  lemma ClosedParts(front: seq<AliasNode>, back: seq<AliasNode>, b: Bindings)
    ensures Closed(front + back, b) <==> Closed(front, b) && Closed(back, b)
  {
    if Closed(front + back, b) {
      assert forall node | node in front :: node in front + back;
      assert forall node | node in back :: node in front + back;
    }
  }

  /** The assignments of the first statement, nested ones included. */
  function HeadNodes(s: Stmt): seq<AliasNode> {
    match s
    case Assign(targets, value) => [AliasNode(TargetNames(targets), value)]
    case If(_, thn, els) => AliasNodes(thn) + AliasNodes(els)
    case While(_, body) => AliasNodes(body)
    case For(_, _, body) => AliasNodes(body)
    case _ => []
  }

  lemma NodesSplit(program: seq<Stmt>, b: Bindings)
    requires program != []
    ensures AliasNodes(program) == HeadNodes(program[0]) + AliasNodes(program[1..])
    ensures Closed(AliasNodes(program), b) <==> Closed(HeadNodes(program[0]), b) && Closed(AliasNodes(program[1..]), b)
  {
    ClosedParts(HeadNodes(program[0]), AliasNodes(program[1..]), b);
  }

  /** Acceptance passes to the first statement and the rest of the program. */
  lemma AcceptedParts(program: seq<Stmt>, b: Bindings)
    requires program != [] && Accepted(program, b)
    ensures Accepted(program[1..], b)
    ensures StmtViolations(program[0], b) == {} && Closed(HeadNodes(program[0]), b)
  {
    NodesSplit(program, b);
  }

  lemma BlockViolations(s: Stmt, b: Bindings)
    requires StmtViolations(s, b) == {}
    ensures s.If? ==> Violations(s.thn, b) == {} && Violations(s.els, b) == {}
    ensures s.While? || s.For? ==> Violations(s.body, b) == {}
  {
  }

  /** Acceptance passes to nested blocks. */
  lemma AcceptedBlocks(program: seq<Stmt>, b: Bindings)
    requires program != [] && Accepted(program, b)
    ensures program[0].If? ==> Accepted(program[0].thn, b) && Accepted(program[0].els, b)
    ensures program[0].While? || program[0].For? ==> Accepted(program[0].body, b)
  {
    AcceptedParts(program, b);
    BlockViolations(program[0], b);
    if program[0].If? { ClosedParts(AliasNodes(program[0].thn), AliasNodes(program[0].els), b); }
  }

  lemma {:induction false} AliasNodesConcat(front: seq<Stmt>, back: seq<Stmt>)
    ensures AliasNodes(front + back) == AliasNodes(front) + AliasNodes(back)
    decreases |front|
  {
    if front == [] {
      assert front + back == back;
    } else {
      assert (front + back)[1..] == front[1..] + back;
      AliasNodesConcat(front[1..], back);
    }
  }

  lemma {:induction false} AcceptedConcat(front: seq<Stmt>, back: seq<Stmt>, b: Bindings)
    requires Accepted(front, b) && Accepted(back, b)
    ensures Accepted(front + back, b)
    decreases |front|
  {
    AliasNodesConcat(front, back);
    ClosedParts(AliasNodes(front), AliasNodes(back), b);
    if front == [] {
      assert front + back == back;
    } else {
      assert (front + back)[1..] == front[1..] + back;
      AcceptedParts(front, b);
      AcceptedConcat(front[1..], back, b);
    }
  }

  lemma {:induction false} TargetNamesListed(targets: seq<Target>, id: string)
    requires NameTarget(id) in targets
    ensures id in TargetNames(targets)
  {
    if targets[0] != NameTarget(id) {
      TargetNamesListed(targets[1..], id);
    }
  }

  lemma {:induction false} BoundNames(targets: seq<Target>, v: Value, env: Env)
    ensures forall n :: n in BindAll(targets, v, env) ==>
                          || (n in env && BindAll(targets, v, env)[n] == env[n])
                          || (NameTarget(n) in targets && BindAll(targets, v, env)[n] == v)
  {
    if targets != [] {
      var env' := if targets[0].NameTarget? then env[targets[0].id := v] else env;
      BoundNames(targets[1..], v, env');
    }
  }

  lemma AssignKeepsEnv(targets: seq<Target>, value: Expr, env: Env, b: Bindings, k: set<Chain>)
    requires StandIns(k) && EnvAccounted(env, b, k)
    requires SafeValue(value, if AllNames(targets) then AliasValue else PLAIN_USE, env, b, k)
    requires Closed([AliasNode(TargetNames(targets), value)], b)
    ensures EnvAccounted(BindAll(targets, Evaluate(value, env), env), b, k)
  {
    var v := Evaluate(value, env);
    BoundNames(targets, v, env);
    if HoldsBpy(v) {
      forall id | NameTarget(id) in targets
        ensures Accounted(v.chain, Held(b, id), k)
      {
        TargetNamesListed(targets, id);
        BoundIsAccounted(TargetNames(targets), value, id, v.chain, b, k);
      }
    }
  }

  lemma BoundIsAccounted(names: seq<string>, value: Expr, id: string, h: Chain, b: Bindings, k: set<Chain>)
    requires StandIns(k) && IsBpy(h) && Accounted(h, Resolved(value, b), k)
    requires Closed([AliasNode(names, value)], b) && id in names
    ensures Accounted(h, Held(b, id), k)
  {
    var node := AliasNode(names, value);
    assert node in [node];
    forall c | c in AliasChains(value, b)
      ensures c in Held(b, id)
    {
      assert AliasChains(node.value, b) != {};
    }
    if h in Resolved(value, b) {
      assert h in AliasChains(value, b);
    } else {
      forall c | c in k
        ensures c + h[1..] in Held(b, id)
      {
        assert (c + h[1..])[0] == c[0];
        assert c + h[1..] in AliasChains(value, b);
      }
    }
  }

  lemma ImportKeepsEnv(spec: ImportSpec, env: Env, b: Bindings, k: set<Chain>)
    requires EnvAccounted(env, b, k) && !ImportDenied(spec) && ImportBound(spec, b)
    ensures EnvAccounted(env[ImportBinding(spec).0 := Handle(ImportBinding(spec).1)], b, k)
  {
    var chain := ImportBinding(spec).1;
    assert IsBpy(chain) ==> chain == ["bpy"];
    assert !Refused(["bpy"]);
  }

  lemma AcceptedUseIsSafe(e: Expr, use: Use, env: Env, b: Bindings, k: set<Chain>)
    requires StandIns(k) && EnvAccounted(env, b, k) && UsedViolations([e], PLAIN_USE, b) == {}
    ensures SafeEvents(UsedEvents([e], None, use, env), b, k)
    ensures SafeValue(e, PLAIN_USE, env, b, k)
  {
    AcceptedUsesAreSafe([e], PLAIN_USE, None, use, env, b, k);
    AcceptedExprIsSafe(e, PLAIN_USE, None, env, b, k);
  }

  lemma AcceptedAssignIsSafe(targets: seq<Target>, value: Expr, env: Env, b: Bindings, k: set<Chain>)
    requires StandIns(k) && EnvAccounted(env, b, k) && StmtViolations(Assign(targets, value), b) == {}
    ensures SafeEvents(StmtEvents(Assign(targets, value), env), b, k)
    ensures SafeValue(value, if AllNames(targets) then AliasValue else PLAIN_USE, env, b, k)
  {
    AcceptedExprIsSafe(value, if AllNames(targets) then AliasValue else PLAIN_USE, None, env, b, k);
    AcceptedTargetsAreSafe(targets, env, b, k);
  }

  /** A statement without violations does nothing the policy forbids. */
  lemma AcceptedStmtIsSafe(s: Stmt, env: Env, b: Bindings, k: set<Chain>)
    requires StmtViolations(s, b) == {} && StandIns(k) && EnvAccounted(env, b, k)
    ensures SafeEvents(StmtEvents(s, env), b, k)
  {
    match s
    case Import(_) =>
    case Assign(targets, value) => AcceptedAssignIsSafe(targets, value, env, b, k);
    case Evaluated(e) => AcceptedUseIsSafe(e, Discarded, env, b, k);
    case Return(e) => AcceptedUseIsSafe(e, Returned, env, b, k);
    case If(cond, _, _) => AcceptedUseIsSafe(cond, Tested, env, b, k);
    case While(cond, _) => AcceptedUseIsSafe(cond, Tested, env, b, k);
    case For(_, iter, _) => AcceptedUseIsSafe(iter, Iterated, env, b, k);
  }

  lemma IteratedKeepsEnv(target: string, v: Value, env: Env, b: Bindings, k: set<Chain>)
    requires EnvAccounted(env, b, k) && !HoldsBpy(v) && (v.Handle? ==> v.chain != [])
    ensures EnvAccounted(env[target := v], b, k)
  {
  }

  /** What is left to run stays accepted. */
  lemma StepKeepsAccepted(c: Config, d: Config, b: Bindings)
    requires Step(c, d) && Accepted(c.todo, b)
    ensures Accepted(d.todo, b)
  {
    AcceptedParts(c.todo, b);
    AcceptedBlocks(c.todo, b);
    var rest := c.todo[1..];
    match c.todo[0]
    case If(_, thn, els) =>
      AcceptedConcat(thn, rest, b);
      AcceptedConcat(els, rest, b);
    case While(_, body) => AcceptedConcat(body, c.todo, b);
    case For(_, _, body) => AcceptedConcat(body, c.todo, b);
    case _ =>
  }

  /** What names hold stays accounted for. */
  lemma StepKeepsEnv(c: Config, d: Config, b: Bindings, k: set<Chain>)
    requires Step(c, d) && Accepted(c.todo, b) && StandIns(k) && EnvAccounted(c.env, b, k)
    ensures EnvAccounted(d.env, b, k)
  {
    AcceptedParts(c.todo, b);
    match c.todo[0]
    case Import(spec) => ImportKeepsEnv(spec, c.env, b, k);
    case Assign(targets, value) =>
      AcceptedAssignIsSafe(targets, value, c.env, b, k);
      AssignKeepsEnv(targets, value, c.env, b, k);
    case For(target, iter, _) =>
      AcceptedUseIsSafe(iter, Iterated, c.env, b, k);
      IteratedKeepsEnv(target, Evaluate(iter, c.env), c.env, b, k);
    case _ =>
  }

  lemma StepKeepsSafety(c: Config, d: Config, b: Bindings, k: set<Chain>)
    requires Step(c, d) && Accepted(c.todo, b) && StandIns(k) && EnvAccounted(c.env, b, k)
    ensures Accepted(d.todo, b) && EnvAccounted(d.env, b, k)
  {
    StepKeepsAccepted(c, d, b);
    StepKeepsEnv(c, d, b, k);
  }

  /** The bindings know that `bpy` may be the handle the worker supplies. */
  predicate RootKnown(b: Bindings) {
    ["bpy"] in Held(b, "bpy")
  }

  /** The worker's namespace is accounted for exactly when the root is known. */
  lemma NamespaceSafeIff(b: Bindings)
    ensures EnvSafe(WORKER_NAMESPACE, b) <==> RootKnown(b)
  {
    assert HoldsBpy(WORKER_NAMESPACE["bpy"]);
    assert !Refused(["bpy"]);
  }

  lemma {:induction false} RunStaysSafe(program: seq<Stmt>, b: Bindings, run: seq<Config>, i: nat, k: set<Chain>)
    requires Accepted(program, b) && StandIns(k) && EnvAccounted(WORKER_NAMESPACE, b, k)
    requires Run(program, run) && i < |run|
    ensures Accepted(run[i].todo, b) && EnvAccounted(run[i].env, b, k)
  {
    if i > 0 {
      RunStaysSafe(program, b, run, i - 1, k);
      StepKeepsSafety(run[i - 1], run[i], b, k);
    }
  }

  /** Soundness, state by state: in any run of an accepted program every bpy handle a name holds is
      accounted for, and the statement about to run does nothing forbidden. */
  lemma AcceptedRunsAreSound(program: seq<Stmt>, b: Bindings, run: seq<Config>, i: nat)
    requires Within(ImportSeed(program, map[]), b) && Closed(AliasNodes(program), b)
    requires Violations(program, b) == {} && RootKnown(b)
    requires Run(program, run) && i < |run|
    ensures EnvSafe(run[i].env, b)
    ensures run[i].todo != [] ==> SafeEvents(StmtEvents(run[i].todo[0], run[i].env), b, {})
  {
    SeedBindsImports(program, map[], b);
    NamespaceSafeIff(b);
    RunStaysSafe(program, b, run, i, {});
    if run[i].todo != [] {
      AcceptedParts(run[i].todo, b);
      AcceptedStmtIsSafe(run[i].todo[0], run[i].env, b, {});
    }
  }

  ghost predicate Sound(program: seq<Stmt>, b: Bindings) {
    forall run: seq<Config>, i: int :: Run(program, run) && 0 <= i < |run| ==>
      && EnvSafe(run[i].env, b)
      && (run[i].todo != [] ==> SafeEvents(StmtEvents(run[i].todo[0], run[i].env), b, {}))
  }

  /** Soundness: an accepted program whose bindings know the root does nothing forbidden in any run. */
  lemma AcceptedProgramsAreSound(program: seq<Stmt>, b: Bindings)
    requires Within(ImportSeed(program, map[]), b) && Closed(AliasNodes(program), b)
    requires Violations(program, b) == {} && RootKnown(b)
    ensures Sound(program, b)
  {
    forall run: seq<Config>, i: int | Run(program, run) && 0 <= i < |run|
      ensures EnvSafe(run[i].env, b)
      ensures run[i].todo != [] ==> SafeEvents(StmtEvents(run[i].todo[0], run[i].env), b, {})
    {
      AcceptedRunsAreSound(program, b, run, i);
    }
  }

  /** For every accepted program: the analysis accounts for all its runs exactly when its bindings know the
      root. */
  lemma SoundIff(program: seq<Stmt>, b: Bindings)
    requires Within(ImportSeed(program, map[]), b) && Closed(AliasNodes(program), b)
    requires Violations(program, b) == {}
    ensures Sound(program, b) <==> RootKnown(b)
  {
    if RootKnown(b) {
      AcceptedProgramsAreSound(program, b);
    } else {
      var start := [Config(program, WORKER_NAMESPACE)];
      assert Run(program, start);
      NamespaceSafeIff(b);
      assert !EnvSafe(start[0].env, b);
    }
  }

  // ---- when the bindings know the root ---------------------------------------------------------

  /** Read off the imports and assignments: an imported `bpy` is known exactly when imports give the name its
      own chain; a name no assignment rebinds keeps its default. */
  lemma RootKnownIff(seed: Bindings, nodes: seq<AliasNode>, b: Bindings)
    requires WellSeeded(seed) && LoopState(seed, nodes, b) && Closed(nodes, b)
    ensures "bpy" in seed ==> (RootKnown(b) <==> ByImports(seed, nodes, "bpy", ["bpy"]))
    ensures "bpy" !in seed && !Rebound(seed, nodes, "bpy") ==> RootKnown(b)
    ensures "bpy" !in seed && Rebound(seed, nodes, "bpy") ==> "bpy" in b && (RootKnown(b) <==> ["bpy"] in b["bpy"])
  {
    BoundNamesIff(seed, nodes, b, "bpy");
    if "bpy" in seed {
      if ByImports(seed, nodes, "bpy", ["bpy"]) {
        ImportsTravel(seed, nodes, b, "bpy", ["bpy"]);
      } else if RootKnown(b) {
        KnownRootIsImported(seed, nodes);
      }
    }
  }

  lemma KnownRootIsImported(seed: Bindings, nodes: seq<AliasNode>)
    requires "bpy" in seed && Explained(seed, nodes, "bpy", ["bpy"])
    ensures ByImports(seed, nodes, "bpy", ["bpy"])
  {
    if ["bpy"] !in seed["bpy"] {
      var from, p, legs :| Carries(seed, nodes, from, p, legs, "bpy", ["bpy"]);
      assert |p| + |Gained(nodes, legs)| == 1;
      assert ["bpy"][0] == p[0];
      assert from in seed;
    }
  }

  /** A condition on the imports and assignments alone: whatever order the walk lists them in, the bindings
      know the root. */
  ghost predicate RootSafeInSource(seed: Bindings, nodes: seq<AliasNode>) {
    if "bpy" in seed then ByImports(seed, nodes, "bpy", ["bpy"]) else RootSafe(seed, nodes, "bpy")
  }

  lemma ListedRootIsKnown(seed: Bindings, nodes: seq<AliasNode>, listing: seq<AliasNode>, b: Bindings)
    requires WellSeeded(seed) && !LiveLengtheningCycle(seed, nodes) && RootSafeInSource(seed, nodes)
    requires SameNodes(nodes, listing) && LoopResult(seed, listing, b)
    ensures RootKnown(b)
  {
    ResultIsClosedState(seed, listing, b);
    if LiveLengtheningCycle(seed, listing) { CycleRelists(seed, listing, nodes); }
    if "bpy" in seed {
      ByImportsRelists(seed, nodes, listing, "bpy", ["bpy"]);
      RootKnownIff(seed, listing, b);
    } else if "bpy" in b {
      SafeRelists(seed, nodes, listing, "bpy");
      SafeRootIsKept(seed, listing, b, "bpy");
    }
  }

  lemma RootKnownInEveryOrderIff(seed: Bindings, nodes: seq<AliasNode>)
    requires WellSeeded(seed) && !LiveLengtheningCycle(seed, nodes)
    ensures (forall listing, b | Listing(nodes, listing) && LoopResult(seed, listing, b) :: RootKnown(b))
            <==> RootSafeInSource(seed, nodes)
  {
    if RootSafeInSource(seed, nodes) {
      forall listing, b | Listing(nodes, listing) && LoopResult(seed, listing, b)
        ensures RootKnown(b)
      {
        ListingHasSameNodes(nodes, listing);
        ListedRootIsKnown(seed, nodes, listing, b);
      }
    } else if "bpy" in seed {
      var b := ResultExists(seed, nodes);
      assert Listing(nodes, nodes);
      ResultIsClosedState(seed, nodes, b);
      RootKnownIff(seed, nodes, b);
    } else {
      var listing, b := UnsafeRootIsLost(seed, nodes, "bpy");
    }
  }
}
