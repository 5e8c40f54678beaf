/**
  What the artifact policy reports, exactly.

  The bindings are read as the environments they allow: each name holds one of its chains.  A violation is reported
  exactly when in some such environment a plain path is caught reading or calling an external capability, or being used
  as a value without licence - and nothing else is reported.  The one licence is the frame read, passed alone to `int`
  inside `frame_set`.
 */
module ArtifactExactness {
  import opened Common
  import opened ArtifactLanguage
  import opened AliasBindings
  import opened ArtifactEvents
  import opened ArtifactPolicy

  // ---- the environments that bindings allow --------------------------------------------

  /** A bound name, or a tracked root, holds one of its chains; of other names nothing is tracked. */
  ghost predicate HoldsIn(env: Env, b: Bindings, n: string) {
    if n in b || TrackedRoot(n) then
      if Held(b, n) == {} then n !in env
      else n in env && env[n].Handle? && env[n].chain in Held(b, n)
    else
      n in env && env[n].Handle? ==> Untracked(env[n].chain)
  }

  predicate Untracked(c: Chain) {
    c != [] && !Tracked(c)
  }

  ghost predicate Conforms(env: Env, b: Bindings) {
    forall n: string :: HoldsIn(env, b, n)
  }

  ghost function Allowed(b: Bindings): Env -> bool {
    env => Conforms(env, b)
  }

  /** In some environment the expression evaluates to a handle on `c`. */
  ghost predicate Yields(e: Expr, c: Chain, b: Bindings) {
    YieldsIn(e, c, Allowed(b))
  }

  /** The expression is a path that evaluates to a handle on `c` in every environment. */
  ghost predicate Always(e: Expr, c: Chain, b: Bindings) {
    IsPath(e) && forall env | Conforms(env, b) :: Evaluate(e, env) == Handle(c)
  }

  /** Some environment. */
  ghost function AnyEnv(b: Bindings): (env: Env)
    ensures Conforms(env, b)
  {
    var names := set n | n in b.Keys + {"bpy", "json"} && Held(b, n) != {};
    map n | n in names :: Handle(var c :| c in Held(b, n); c)
  }

  /** Any chain of a name is held in some environment. */
  lemma HoldsAny(b: Bindings, n: string, c: Chain) returns (env: Env)
    requires c in Held(b, n) && (n in b || TrackedRoot(n))
    ensures Conforms(env, b) && n in env && env[n] == Handle(c)
  {
    var any := AnyEnv(b);
    env := any[n := Handle(c)];
    forall m: string
      ensures HoldsIn(env, b, m)
    {
      assert HoldsIn(any, b, m);
    }
  }

  /** In an environment a path is one of its resolved chains, or nothing about it is tracked. */
  ghost predicate Meets(e: Expr, env: Env, b: Bindings) {
    var v := Evaluate(e, env);
    || (v.Handle? && v.chain in Resolved(e, b))
    || ((v.Handle? ==> Untracked(v.chain)) && forall c | c in Resolved(e, b) :: Untracked(c))
  }

  lemma {:induction false} PathMeets(e: Expr, env: Env, b: Bindings)
    requires IsPath(e) && Conforms(env, b)
    ensures Meets(e, env, b)
  {
    match e
    case Name(id) => assert HoldsIn(env, b, id);
    case Attr(base, _) => PathMeets(base, env, b);
  }

  lemma {:induction false} PathEvaluates(e: Expr, env: Env, p: Chain)
    requires PathOf(e).Some? && PathOf(e).value.name in env && env[PathOf(e).value.name] == Handle(p)
    ensures Evaluate(e, env) == Handle(p + PathOf(e).value.attrs)
  {
    match e
    case Name(_) => assert p + [] == p;
    case Attr(base, attr) =>
      PathEvaluates(base, env, p);
      assert p + (PathOf(base).value.attrs + [attr]) == (p + PathOf(base).value.attrs) + [attr];
  }

  /** When a path may be tracked at all, every chain it resolves to is yielded in some environment. */
  lemma ResolvedYields(e: Expr, tracked: Chain, c: Chain, b: Bindings)
    requires tracked in Resolved(e, b) && Tracked(tracked) && c in Resolved(e, b)
    ensures Yields(e, c, b)
  {
    var q := ResolvedSplits(e, b, tracked);
    var p := ResolvedSplits(e, b, c);
    var n := PathOf(e).value.name;
    if n !in b { assert tracked[0] == n; }
    var env := HoldsAny(b, n, p);
    PathEvaluates(e, env, p);
  }

  lemma {:induction false} OnlyPathsResolve(e: Expr, b: Bindings)
    requires !IsPath(e)
    ensures Resolved(e, b) == {}
  {
    if e.Attr? { OnlyPathsResolve(e.base, b); }
  }

  /** A path yields exactly its tracked chains. */
  lemma YieldsIff(e: Expr, c: Chain, b: Bindings)
    requires IsPath(e) && Tracked(c)
    ensures Yields(e, c, b) <==> c in Resolved(e, b)
  {
    if c in Resolved(e, b) {
      ResolvedYields(e, c, c, b);
    } else {
      forall env | Conforms(env, b)
        ensures Evaluate(e, env) != Handle(c)
      {
        PathMeets(e, env, b);
      }
    }
  }

  /** An expression is always a handle on `c` exactly when it resolves to nothing else. */
  lemma AlwaysIff(e: Expr, c: Chain, b: Bindings)
    requires Tracked(c)
    ensures Always(e, c, b) <==> Resolved(e, b) == {c}
  {
    if !IsPath(e) {
      OnlyPathsResolve(e, b);
    } else if Always(e, c, b) {
      var env := AnyEnv(b);
      PathMeets(e, env, b);
      forall d | d in Resolved(e, b)
        ensures d == c
      {
        ResolvedYields(e, c, d, b);
      }
    } else if Resolved(e, b) == {c} {
      forall env | Conforms(env, b)
        ensures Evaluate(e, env) == Handle(c)
      {
        PathMeets(e, env, b);
      }
    }
  }

  // ---- what is to be reported ----------------------------------------------------------

  /** The sole argument of `int`, itself the sole argument of what always is `frame_set`. */
  ghost predicate FeedsFrameSet(use: Use, b: Bindings) {
    && use.Argument? && use.sole && use.callee == Name("int")
    && use.enclosing.Some? && Always(use.enclosing.value, FRAME_SET, b)
  }

  ghost predicate Licensed(e: Expr, use: Use, b: Bindings) {
    FeedsFrameSet(use, b) && e.Attr? && Always(e, FRAME_CURRENT, b)
  }

  ghost predicate ReadsExternal(e: Expr, b: Bindings) {
    e.Attr? && exists c :: External(c) && Yields(e, c, b)
  }

  /** What an event of a path is reported as: an external capability, by the expression that reads or calls it; any
      other bpy handle used as a value without licence, by the expression used. */
  ghost predicate Reports(ev: Event, b: Bindings, v: Violation) {
    && IsPath(ev.source)
    && match ev
       case Formed(c, e) => e.Attr? && External(c) && v == RefusedChain(e, c)
       case Called(c, e) => External(c) && v == RefusedChain(e, c)
       case Escaped(c, e, use) => IsBpy(c) && !Licensed(e, use, b) && !ReadsExternal(e, b) && v == AliasEscape(e)
  }

  ghost function ReportedAs(b: Bindings, v: Violation): Event -> bool {
    ev => Reports(ev, b, v)
  }

  /** The context is what the position is. */
  ghost predicate Matches(context: Context, outer: Option<Expr>, use: Option<Use>, b: Bindings) {
    && (context.Consumed? <==> use.Some?)
    && (context.Consumed? && context.feedsFrameSet <==> outer.Some? && Always(outer.value, FRAME_SET, b))
    && (use.Some? ==> (context.readsFrame <==> FeedsFrameSet(use.value, b)))
  }

  // ---- reported exactly ----------------------------------------------------------------

  lemma RefusedYields(e: Expr, c: Chain, b: Bindings)
    ensures RefusedChain(e, c) in ChainViolations(e, b) <==> IsPath(e) && External(c) && Yields(e, c, b)
    ensures (exists c :: RefusedChain(e, c) in ChainViolations(e, b)) <==> ChainViolations(e, b) != {}
  {
    RefusedIff(c);
    if !IsPath(e) { OnlyPathsResolve(e, b); } else if External(c) { YieldsIff(e, c, b); }
  }

  lemma RefusedExternal(e: Expr, b: Bindings)
    requires e.Attr? && IsPath(e)
    ensures ChainViolations(e, b) != {} <==> ReadsExternal(e, b)
  {
    if ReadsExternal(e, b) {
      var c :| External(c) && Yields(e, c, b);
      RefusedYields(e, c, b);
    } else if ChainViolations(e, b) != {} {
      RefusedYields(e, [], b);
      var c :| RefusedChain(e, c) in ChainViolations(e, b);
      RefusedYields(e, c, b);
    }
  }

  /** What an attribute access is reported for on its own account. */
  function OwnViolations(e: Expr, context: Context, b: Bindings): set<Violation> {
    var refused := ChainViolations(e, b);
    if refused != {} then refused
    else if && MayBeBpy(e, b) && !MayHoldHandle(context)
            && !(context.readsFrame && Resolved(e, b) == {FRAME_CURRENT})
    then {AliasEscape(e)}
    else {}
  }

  /** The chains an expression is reported for are those it yields in some environment. */
  lemma RefusedExactly(e: Expr, b: Bindings, v: Violation)
    ensures v in ChainViolations(e, b)
            <==> v.RefusedChain? && v.e == e && IsPath(e) && External(v.chain) && Yields(e, v.chain, b)
  {
    if v.RefusedChain? { RefusedYields(e, v.chain, b); }
  }

  lemma FormedExactly(e: Expr, b: Bindings, v: Violation)
    requires e.Attr?
    ensures v in ChainViolations(e, b) <==> FormedCaught(e, Allowed(b), ReportedAs(b, v))
  {
    RefusedExactly(e, b, v);
    FormedIff(e, Allowed(b), ReportedAs(b, v));
    if v in ChainViolations(e, b) { assert ReportedAs(b, v)(Formed(v.chain, e)); }
  }

  lemma CalledExactly(e: Expr, b: Bindings, v: Violation)
    ensures v in ChainViolations(e, b) <==> CallCaught(e, Allowed(b), ReportedAs(b, v))
  {
    RefusedExactly(e, b, v);
    CalledIff(e, Allowed(b), ReportedAs(b, v));
    if v in ChainViolations(e, b) { assert ReportedAs(b, v)(Called(v.chain, e)); }
  }

  lemma MayBeBpyIff(e: Expr, b: Bindings)
    requires IsPath(e)
    ensures MayBeBpy(e, b) <==> exists c :: IsBpy(c) && Yields(e, c, b)
  {
    if MayBeBpy(e, b) {
      var c :| c in Resolved(e, b) && IsBpy(c);
      YieldsIff(e, c, b);
    } else if c :| IsBpy(c) && Yields(e, c, b) {
      YieldsIff(e, c, b);
    }
  }

  ghost predicate EscapeDue(e: Expr, use: Use, b: Bindings, v: Violation) {
    IsPath(e) && !ReadsExternal(e, b) && !Licensed(e, use, b) && v == AliasEscape(e)
  }

  lemma EscapeReported(e: Expr, use: Use, c: Chain, b: Bindings, v: Violation)
    ensures ReportedAs(b, v)(Escaped(c, e, use)) <==> IsBpy(c) && EscapeDue(e, use, b, v)
  {
  }

  lemma EscapeExactly(e: Expr, use: Use, b: Bindings, v: Violation)
    ensures EscapeCaught(e, use, Allowed(b), ReportedAs(b, v)) <==> MayBeBpy(e, b) && EscapeDue(e, use, b, v)
  {
    var bad := ReportedAs(b, v);
    EscapedIff(e, use, Allowed(b), bad);
    if EscapeCaught(e, use, Allowed(b), bad) {
      var c :| Yields(e, c, b) && bad(Escaped(c, e, use));
      EscapeReported(e, use, c, b, v);
      MayBeBpyIff(e, b);
    } else if MayBeBpy(e, b) && EscapeDue(e, use, b, v) {
      MayBeBpyIff(e, b);
      var c :| IsBpy(c) && Yields(e, c, b);
      EscapeReported(e, use, c, b, v);
    }
  }

  ghost predicate Reported(e: Expr, outer: Option<Expr>, use: Option<Use>, b: Bindings, v: Violation) {
    Caught(e, outer, use, Allowed(b), ReportedAs(b, v))
  }

  ghost predicate UsedReported(es: seq<Expr>, outer: Option<Expr>, use: Use, b: Bindings, v: Violation) {
    UsedCaught(es, outer, use, Allowed(b), ReportedAs(b, v))
  }

  lemma NameExactly(e: Expr, context: Context, outer: Option<Expr>, use: Option<Use>, b: Bindings, v: Violation)
    requires e.Name? && Matches(context, outer, use, b)
    ensures v in ExprViolations(e, context, b) <==> Reported(e, outer, use, b, v)
  {
    NameParts(e, outer, use, Allowed(b), ReportedAs(b, v));
    FormedIff(e, Allowed(b), ReportedAs(b, v));
    if use.Some? { EscapeExactly(e, use.value, b, v); }
  }

  lemma AttrExactly(e: Expr, context: Context, outer: Option<Expr>, use: Option<Use>, b: Bindings, v: Violation)
    requires e.Attr? && Matches(context, outer, use, b)
    ensures v in OwnViolations(e, context, b) || Reported(e.base, None, None, b, v) <==> Reported(e, outer, use, b, v)
  {
    AttrParts(e, outer, use, Allowed(b), ReportedAs(b, v));
    FormedExactly(e, b, v);
    if use.Some? { EscapeExactly(e, use.value, b, v); }
    OwnExactly(e, context, outer, use, b, v);
  }

  lemma OwnExactly(e: Expr, context: Context, outer: Option<Expr>, use: Option<Use>, b: Bindings, v: Violation)
    requires e.Attr? && Matches(context, outer, use, b)
    ensures v in OwnViolations(e, context, b)
            <==> || v in ChainViolations(e, b)
                 || (use.Some? && MayBeBpy(e, b) && EscapeDue(e, use.value, b, v))
  {
    if !IsPath(e) {
      OnlyPathsResolve(e, b);
    } else {
      RefusedExternal(e, b);
      AlwaysIff(e, FRAME_CURRENT, b);
    }
  }

  lemma CallExactly(e: Expr, context: Context, outer: Option<Expr>, use: Option<Use>, b: Bindings, v: Violation)
    requires e.Call? && (v in ExprViolations(e.func, Callee, b) <==> Reported(e.func, None, None, b, v))
    requires v in UsedViolations(e.args, ArgumentContext(e, context, b), b)
             <==> UsedReported(e.args, InnerCallee(e), ArgumentUse(e, outer), b, v)
    requires v in UsedViolations(e.keywords, PLAIN_USE, b)
             <==> UsedReported(e.keywords, None, Argument(e.func, false, outer), b, v)
    ensures v in ExprViolations(e, context, b) <==> Reported(e, outer, use, b, v)
  {
    CalledExactly(e.func, b, v);
    ArtifactEvents.CallParts(e, outer, use, Allowed(b), ReportedAs(b, v));
  }

  lemma {:induction false} ReportedExactly(e: Expr, context: Context, outer: Option<Expr>, use: Option<Use>,
                                           b: Bindings, v: Violation)
    requires Matches(context, outer, use, b)
    ensures v in ExprViolations(e, context, b) <==> Reported(e, outer, use, b, v)
    decreases e, 1
  {
    match e
    case Name(_) => NameExactly(e, context, outer, use, b, v);
    case Attr(base, _) =>
      ReportedExactly(base, AttributeBase, None, None, b, v);
      AttrExactly(e, context, outer, use, b, v);
    case Call(func, args, keywords) =>
      ReportedExactly(func, Callee, None, None, b, v);
      CallMatches(e, context, outer, use, b);
      UsesReportedExactly(args, ArgumentContext(e, context, b), InnerCallee(e), ArgumentUse(e, outer), b, v);
      UsesReportedExactly(keywords, PLAIN_USE, None, Argument(func, false, outer), b, v);
      CallExactly(e, context, outer, use, b, v);
    case Op(operands) =>
      UsesReportedExactly(operands, PLAIN_USE, None, Operand, b, v);
      OpParts(e, outer, use, Allowed(b), ReportedAs(b, v));
    case Literal =>
      NothingReported(outer, use, b, v);
  }

  lemma NothingReported(outer: Option<Expr>, use: Option<Use>, b: Bindings, v: Violation)
    ensures !Reported(Literal, outer, use, b, v)
  {
  }

  lemma {:induction false} UsesReportedExactly(es: seq<Expr>, context: Context, outer: Option<Expr>, use: Use,
                                               b: Bindings, v: Violation)
    requires Matches(context, outer, Some(use), b)
    ensures v in UsedViolations(es, context, b) <==> UsedReported(es, outer, use, b, v)
    decreases es, 0
  {
    if es != [] {
      ReportedExactly(es[0], context, outer, Some(use), b, v);
      UsesReportedExactly(es[1..], context, outer, use, b, v);
      FirstParts(es, outer, use, Allowed(b), ReportedAs(b, v));
    }
  }

  // ---- statements and programs ---------------------------------------------------------

  function NamedPath(spec: ImportSpec): seq<string> {
    match spec
    case Module(path, _) => path
    case Member(_, path, name, _) => path + [name]
  }

  /** An absolute import of something named under an admitted root, and of bpy nothing but bpy itself. */
  predicate Admitted(spec: ImportSpec) {
    var whole := NamedPath(spec);
    && whole != [] && whole[0] in ALLOWED_IMPORT_ROOTS && (whole[0] == "bpy" ==> whole == ["bpy"])
    && (spec.Member? ==> spec.level == 0 && spec.path != [] && spec.name != "*")
  }

  lemma DeniedIff(spec: ImportSpec)
    ensures ImportDenied(spec) <==> !Admitted(spec)
  {
    assert forall root | root in ALLOWED_IMPORT_ROOTS :: |root| > 0;
    if spec.Member? && spec.path != [] { assert |spec.path + [spec.name]| >= 2; }
  }

  /** What is to be reported about one statement: the import, or what it does itself. */
  ghost predicate StmtReported(s: Stmt, b: Bindings, v: Violation) {
    if s.Import? then !Admitted(s.spec) && v == DeniedImport(s.spec)
    else StmtCaught(s, Allowed(b), ReportedAs(b, v))
  }

  ghost predicate SomeReported(ss: seq<Stmt>, b: Bindings, v: Violation) {
    exists s | s in ss :: StmtReported(s, b, v)
  }

  /** What is to be reported about a program. */
  ghost predicate Deserved(program: seq<Stmt>, b: Bindings, v: Violation) {
    SomeReported(Statements(program), b, v)
  }

  lemma TargetExactly(t: Target, b: Bindings, v: Violation)
    ensures v in TargetViolations([t], b) <==> TargetsCaught([t], Allowed(b), ReportedAs(b, v))
  {
    assert [t][1..] == [];
    TargetParts(t, Allowed(b), ReportedAs(b, v));
    match t
    case NameTarget(_) =>
    case AttrTarget(base, attr) => ReportedExactly(Attr(base, attr), AttributeBase, None, None, b, v);
    case ItemTarget(base, index) => UsesReportedExactly([base, index], PLAIN_USE, None, Operand, b, v);
  }

  lemma {:induction false} TargetsReportedExactly(targets: seq<Target>, b: Bindings, v: Violation)
    ensures v in TargetViolations(targets, b) <==> TargetsCaught(targets, Allowed(b), ReportedAs(b, v))
  {
    if targets != [] {
      TargetsReportedExactly(targets[1..], b, v);
      TargetsParts(targets, Allowed(b), ReportedAs(b, v));
      TargetExactly(targets[0], b, v);
      assert TargetViolations(targets, b) == TargetViolations([targets[0]], b) + TargetViolations(targets[1..], b);
    }
  }

  /** The violations of a statement without those of its blocks. */
  function HeadViolations(s: Stmt, b: Bindings): set<Violation> {
    match s
    case If(cond, _, _) => UsedViolations([cond], PLAIN_USE, b)
    case While(cond, _) => UsedViolations([cond], PLAIN_USE, b)
    case For(_, iter, _) => UsedViolations([iter], PLAIN_USE, b)
    case _ => StmtViolations(s, b)
  }

  lemma AssignReportedExactly(s: Stmt, b: Bindings, v: Violation)
    requires s.Assign?
    ensures v in StmtViolations(s, b) <==> StmtReported(s, b, v)
  {
    var context := if AllNames(s.targets) then AliasValue else PLAIN_USE;
    ReportedExactly(s.value, context, None, AssignUse(s.targets), b, v);
    TargetsReportedExactly(s.targets, b, v);
    AssignParts(s, Allowed(b), ReportedAs(b, v));
  }

  lemma HeadReportedExactly(s: Stmt, b: Bindings, v: Violation)
    ensures v in HeadViolations(s, b) <==> StmtReported(s, b, v)
  {
    if s.Import? {
      DeniedIff(s.spec);
    } else if s.Assign? {
      AssignReportedExactly(s, b, v);
    } else {
      var (e, use) := Subject(s);
      UsesReportedExactly([e], PLAIN_USE, None, use, b, v);
      SubjectParts(s, Allowed(b), ReportedAs(b, v));
    }
  }

  function Nested(s: Stmt): seq<Stmt> {
    match s
    case If(_, thn, els) => Statements(thn) + Statements(els)
    case While(_, body) => Statements(body)
    case For(_, _, body) => Statements(body)
    case _ => []
  }

  lemma SomeParts(front: seq<Stmt>, back: seq<Stmt>, b: Bindings, v: Violation)
    ensures SomeReported(front + back, b, v) <==> SomeReported(front, b, v) || SomeReported(back, b, v)
  {
  }

  /** A program deserves what its first statement, the blocks of that and the rest deserve. */
  lemma DeservedParts(program: seq<Stmt>, b: Bindings, v: Violation)
    requires program != []
    ensures Deserved(program, b, v)
            <==> || StmtReported(program[0], b, v) || SomeReported(Nested(program[0]), b, v)
                 || Deserved(program[1..], b, v)
  {
    var first, nested, rest := [program[0]], Nested(program[0]), Statements(program[1..]);
    assert Statements(program) == first + nested + rest;
    SomeParts(first, nested, b, v);
    SomeParts(first + nested, rest, b, v);
    assert program[0] in first;
  }

  /** The policy reports exactly what is to be reported. */
  lemma {:induction false} ProgramReportedExactly(program: seq<Stmt>, b: Bindings, v: Violation)
    ensures v in Violations(program, b) <==> Deserved(program, b, v)
    decreases program
  {
    if program != [] {
      var s := program[0];
      HeadReportedExactly(s, b, v);
      ProgramReportedExactly(program[1..], b, v);
      DeservedParts(program, b, v);
      match s
      case If(_, thn, els) =>
        ProgramReportedExactly(thn, b, v);
        ProgramReportedExactly(els, b, v);
        SomeParts(Statements(thn), Statements(els), b, v);
      case While(_, body) => ProgramReportedExactly(body, b, v);
      case For(_, _, body) => ProgramReportedExactly(body, b, v);
      case _ =>
    }
  }

  /** The collector: bindings first, then every violation.  `nodes` lists the assignments in the
      order of the walk. */
  method ArtifactViolations(program: seq<Stmt>, nodes: seq<AliasNode>) returns (found: set<Violation>)
    requires forall node :: node in nodes <==> node in AliasNodes(program)
    requires !LiveLengtheningCycle(ImportSeed(program, map[]), nodes)
    ensures exists b :: LoopResult(ImportSeed(program, map[]), nodes, b)
                        && LoopState(ImportSeed(program, map[]), nodes, b) && Closed(nodes, b)
                        && (forall v :: v in found <==> Deserved(program, b, v))
                        && (found == {} ==> (Sound(program, b) <==> RootKnown(b)))
  {
    ImportSeedIsWellSeeded(program, map[]);
    var b := ArtifactBindings(ImportSeed(program, map[]), nodes);
    found := Violations(program, b);
    forall v
      ensures v in found <==> Deserved(program, b, v)
    {
      ProgramReportedExactly(program, b, v);
    }
    if found == {} {
      SoundIff(program, b);
    }
  }

  // ---- accepted exactly ----------------------------------------------------------------

  /** No external capability is read or called, and no bpy handle used as a value but the licensed frame read. */
  ghost predicate Proper(ev: Event, b: Bindings) {
    match ev
    case Formed(c, e) => e.Attr? ==> !External(c)
    case Called(c, _) => !External(c)
    case Escaped(c, e, use) => IsBpy(c) ==> Licensed(e, use, b)
  }

  ghost predicate AllProper(evs: set<Event>, b: Bindings) {
    forall ev | ev in evs :: Proper(ev, b)
  }

  /** An environment takes a tracked value of an expression from its resolved chains. */
  lemma MetChain(e: Expr, env: Env, b: Bindings, c: Chain)
    requires Meets(e, env, b) && Evaluate(e, env) == Handle(c) && Tracked(c)
    ensures c in Resolved(e, b)
  {
  }

  lemma UnrefusedIsProper(e: Expr, env: Env, b: Bindings)
    requires Meets(e, env, b) && ChainViolations(e, b) == {}
    ensures AllProper(OwnEvent(e, env) + CallEvent(e, env), b)
  {
    var v := Evaluate(e, env);
    if v.Handle? {
      if v.chain in Resolved(e, b) { NotRefused(e, v.chain, b); }
      RefusedIff(v.chain);
    }
  }

  lemma NameIsProper(e: Expr, context: Context, outer: Option<Expr>, use: Option<Use>, env: Env, b: Bindings)
    requires e.Name? && Matches(context, outer, use, b) && Conforms(env, b) && ExprViolations(e, context, b) == {}
    ensures AllProper(AllEvents(e, outer, use, env), b) && Meets(e, env, b)
    ensures context == PLAIN_USE ==> !HoldsBpy(Evaluate(e, env))
  {
    PathMeets(e, env, b);
  }

  lemma AttrIsProper(e: Expr, context: Context, outer: Option<Expr>, use: Option<Use>, env: Env, b: Bindings)
    requires e.Attr? && Matches(context, outer, use, b) && OwnViolations(e, context, b) == {}
    requires Meets(e.base, env, b) && AllProper(AllEvents(e.base, None, None, env), b)
    ensures AllProper(AllEvents(e, outer, use, env), b) && Meets(e, env, b)
    ensures context == PLAIN_USE ==> !HoldsBpy(Evaluate(e, env))
  {
    UnrefusedIsProper(e, env, b);
    AlwaysIff(e, FRAME_CURRENT, b);
  }

  /** The context of the arguments is what their position is. */
  lemma CallMatches(e: Expr, context: Context, outer: Option<Expr>, use: Option<Use>, b: Bindings)
    requires e.Call? && Matches(context, outer, use, b)
    ensures Matches(ArgumentContext(e, context, b), InnerCallee(e), Some(ArgumentUse(e, outer)), b)
    ensures Matches(PLAIN_USE, None, Some(Argument(e.func, false, outer)), b)
  {
    AlwaysIff(e.func, FRAME_SET, b);
  }

  lemma CallIsProper(e: Expr, outer: Option<Expr>, use: Option<Use>, env: Env, b: Bindings)
    requires e.Call? && ChainViolations(e.func, b) == {} && Meets(e.func, env, b)
    requires AllProper(Events(e.func, None, env), b)
    requires AllProper(UsedEvents(e.args, InnerCallee(e), ArgumentUse(e, outer), env), b)
    requires AllProper(UsedEvents(e.keywords, None, Argument(e.func, false, outer), env), b)
    ensures AllProper(AllEvents(e, outer, use, env), b)
  {
    UnrefusedIsProper(e.func, env, b);
  }

  lemma {:induction false} AcceptedIsProper(e: Expr, context: Context, outer: Option<Expr>, use: Option<Use>, env: Env,
                                            b: Bindings)
    requires Matches(context, outer, use, b) && Conforms(env, b) && ExprViolations(e, context, b) == {}
    ensures AllProper(AllEvents(e, outer, use, env), b) && Meets(e, env, b)
    ensures context == PLAIN_USE ==> !HoldsBpy(Evaluate(e, env))
    decreases e, 1
  {
    match e
    case Name(_) =>
      NameIsProper(e, context, outer, use, env, b);
    case Attr(base, _) =>
      AcceptedIsProper(base, AttributeBase, None, None, env, b);
      AttrIsProper(e, context, outer, use, env, b);
    case Call(func, args, keywords) =>
      AcceptedIsProper(func, Callee, None, None, env, b);
      ArtifactPolicy.CallParts(e, context, b);
      CallMatches(e, context, outer, use, b);
      UsesAreProper(args, ArgumentContext(e, context, b), InnerCallee(e), ArgumentUse(e, outer), env, b);
      UsesAreProper(keywords, PLAIN_USE, None, Argument(func, false, outer), env, b);
      CallIsProper(e, outer, use, env, b);
    case Op(operands) =>
      UsesAreProper(operands, PLAIN_USE, None, Operand, env, b);
    case Literal =>
  }

  lemma {:induction false} UsesAreProper(es: seq<Expr>, context: Context, outer: Option<Expr>, use: Use, env: Env,
                                         b: Bindings)
    requires Matches(context, outer, Some(use), b) && Conforms(env, b) && UsedViolations(es, context, b) == {}
    ensures AllProper(UsedEvents(es, outer, use, env), b)
    ensures context == PLAIN_USE ==> FirstBpy(es, env) == Plain
    decreases es, 0
  {
    if es != [] {
      AcceptedIsProper(es[0], context, outer, Some(use), env, b);
      UsesAreProper(es[1..], context, outer, use, env, b);
    }
  }

  lemma UsedAlone(e: Expr, env: Env)
    ensures UsedEvents([e], None, Discarded, env) == AllEvents(e, None, Some(Discarded), env)
  {
    assert [e][1..] == [];
  }

  lemma ReportsAreImproper(ev: Event, b: Bindings, v: Violation)
    requires Reports(ev, b, v)
    ensures !Proper(ev, b)
  {
  }

  lemma ReportedIsImproper(e: Expr, b: Bindings, v: Violation)
    requires v in ExprViolations(e, PLAIN_USE, b)
    ensures exists env :: Conforms(env, b) && !AllProper(UsedEvents([e], None, Discarded, env), b)
  {
    ReportedExactly(e, PLAIN_USE, None, Some(Discarded), b, v);
    var env :| Allowed(b)(env) && ShownIn(AllEvents(e, None, Some(Discarded), env), ReportedAs(b, v));
    var ev :| ev in AllEvents(e, None, Some(Discarded), env) && ReportedAs(b, v)(ev);
    UsedAlone(e, env);
    ReportsAreImproper(ev, b, v);
  }

  /** Acceptance is exact: an expression in a plain use is accepted exactly when, in every environment, it reads and
      calls no external capability and uses no bpy handle as a value but the licensed frame read. */
  lemma AcceptedIff(e: Expr, b: Bindings)
    ensures ExprViolations(e, PLAIN_USE, b) == {}
            <==> forall env | Conforms(env, b) :: AllProper(UsedEvents([e], None, Discarded, env), b)
  {
    if v :| v in ExprViolations(e, PLAIN_USE, b) {
      ReportedIsImproper(e, b, v);
    } else {
      forall env | Conforms(env, b)
        ensures AllProper(UsedEvents([e], None, Discarded, env), b)
      {
        UsedAlone(e, env);
        AcceptedIsProper(e, PLAIN_USE, None, Some(Discarded), env, b);
      }
    }
  }

  // ---- the evaluation barrier ----------------------------------------------------------

  const SCENE: Chain := ["bpy", "context", "scene"]

  /** `scene.frame_set(int(scene.frame_current))` */
  function Barrier(scene: Expr): Expr {
    Call(Attr(scene, "frame_set"), [Call(Name("int"), [Attr(scene, "frame_current")], [])], [])
  }

  /** No prefix acquires a capability. */
  ghost predicate Internal(c: Chain) {
    forall p | p <= c :: !External(p)
  }

  lemma SceneIsInternal()
    ensures Internal(SCENE + ["frame_set"]) && Internal(SCENE + ["frame_current"])
  {
    assert |"context"| != |"ops"| && |"context"| != |"utils"| && |"bpy"| != |"json"|;
    assert |"load"| == 4 && |"context"| == 7 && |"scene"| == 5 && |"frame_set"| == 9 && |"frame_current"| == 13;
  }

  lemma {:induction false} InternalPathIsAccepted(e: Expr, b: Bindings, c: Chain)
    requires Resolved(e, b) == {c} && Internal(c)
    ensures ExprViolations(e, AttributeBase, b) == {} && ChainViolations(e, b) == {}
  {
    RefusedIff(c);
    assert c <= c;
    match e
    case Attr(base, attr) =>
      var init := c[..|c| - 1];
      assert forall p | p in Resolved(base, b) :: p + [attr] in Resolved(e, b);
      assert Resolved(base, b) == {init};
      forall p | p <= init
        ensures !External(p)
      {
        assert p <= c;
      }
      InternalPathIsAccepted(base, b, init);
    case _ =>
  }

  /** Reading the current frame there is no violation. */
  lemma FrameReadIsAccepted(scene: Expr, b: Bindings, context: Context)
    requires Resolved(scene, b) == {SCENE} && context.Consumed? && context.readsFrame
    ensures UsedViolations([Attr(scene, "frame_current")], context, b) == {}
  {
    var reader := Attr(scene, "frame_current");
    SceneIsInternal();
    assert SCENE + ["frame_current"] == FRAME_CURRENT;
    assert Resolved(reader, b) == {FRAME_CURRENT};
    InternalPathIsAccepted(reader, b, FRAME_CURRENT);
    assert [reader][1..] == [];
  }

  /** Converting it is as harmless as `int` is. */
  lemma ConversionViolations(scene: Expr, b: Bindings)
    requires Resolved(scene, b) == {SCENE}
    ensures var inner := Call(Name("int"), [Attr(scene, "frame_current")], []);
            UsedViolations([inner], Consumed(true, false), b) == ChainViolations(Name("int"), b)
  {
    var inner := Call(Name("int"), [Attr(scene, "frame_current")], []);
    FrameReadIsAccepted(scene, b, ArgumentContext(inner, Consumed(true, false), b));
    assert ExprViolations(inner, Consumed(true, false), b) == ChainViolations(Name("int"), b);
    assert [inner][1..] == [];
  }

  /** The barrier that replay artifacts end with is accepted for every path that resolves to the scene alone - unless
      the script makes `int` an external capability. */
  lemma BarrierIsAcceptedIff(scene: Expr, b: Bindings)
    requires Resolved(scene, b) == {SCENE}
    ensures ExprViolations(Barrier(scene), PLAIN_USE, b) == {} <==> ChainViolations(Name("int"), b) == {}
  {
    var setter := Attr(scene, "frame_set");
    SceneIsInternal();
    assert SCENE + ["frame_set"] == FRAME_SET;
    assert Resolved(setter, b) == {FRAME_SET};
    InternalPathIsAccepted(setter, b, FRAME_SET);
    assert ArgumentContext(Barrier(scene), PLAIN_USE, b) == Consumed(true, false);
    ConversionViolations(scene, b);
  }
}
