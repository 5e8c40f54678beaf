/**
  Which events an expression or a statement can cause in one of several environments, part by part.

  The environments and the events that matter are arbitrary: whatever is asked of the events of a whole is asked of the
  events of its parts.
 */
module ArtifactEvents {
  import opened Common
  import opened ArtifactLanguage

  predicate IsPath(e: Expr) {
    match e
    case Name(_) => true
    case Attr(base, _) => IsPath(base)
    case _ => false
  }

  /** In some of the environments the expression evaluates to a handle on `c`. */
  ghost predicate YieldsIn(e: Expr, c: Chain, envs: Env -> bool) {
    exists env :: envs(env) && Evaluate(e, env) == Handle(c)
  }

  ghost predicate ShownIn(evs: set<Event>, bad: Event -> bool) {
    exists ev | ev in evs :: bad(ev)
  }

  function AllEvents(e: Expr, outer: Option<Expr>, use: Option<Use>, env: Env): set<Event> {
    Events(e, outer, env) + if use.Some? then EscapeEvent(e, use.value, env) else {}
  }

  /** In some of the environments the expression, used like this, causes a bad event. */
  ghost predicate Caught(e: Expr, outer: Option<Expr>, use: Option<Use>, envs: Env -> bool, bad: Event -> bool) {
    exists env :: envs(env) && ShownIn(AllEvents(e, outer, use, env), bad)
  }

  ghost predicate UsedCaught(es: seq<Expr>, outer: Option<Expr>, use: Use, envs: Env -> bool, bad: Event -> bool) {
    exists env :: envs(env) && ShownIn(UsedEvents(es, outer, use, env), bad)
  }

  ghost predicate FormedCaught(e: Expr, envs: Env -> bool, bad: Event -> bool) {
    exists env :: envs(env) && ShownIn(OwnEvent(e, env), bad)
  }

  ghost predicate CallCaught(func: Expr, envs: Env -> bool, bad: Event -> bool) {
    exists env :: envs(env) && ShownIn(CallEvent(func, env), bad)
  }

  ghost predicate EscapeCaught(e: Expr, use: Use, envs: Env -> bool, bad: Event -> bool) {
    exists env :: envs(env) && ShownIn(EscapeEvent(e, use, env), bad)
  }

  ghost predicate TargetsCaught(targets: seq<Target>, envs: Env -> bool, bad: Event -> bool) {
    exists env :: envs(env) && ShownIn(TargetEvents(targets, env), bad)
  }

  ghost predicate StmtCaught(s: Stmt, envs: Env -> bool, bad: Event -> bool) {
    exists env :: envs(env) && ShownIn(StmtEvents(s, env), bad)
  }

  lemma ShownUnion(evs: set<Event>, more: set<Event>, bad: Event -> bool)
    ensures ShownIn(evs + more, bad) <==> ShownIn(evs, bad) || ShownIn(more, bad)
  {
    if ShownIn(evs + more, bad) {
      var ev :| ev in evs + more && bad(ev);
    }
  }

  lemma ShownAlone(ev: Event, bad: Event -> bool)
    ensures ShownIn({ev}, bad) <==> bad(ev)
  {
    assert ev in {ev};
  }

  // ---- one node ------------------------------------------------------------------------

  lemma FormedIff(e: Expr, envs: Env -> bool, bad: Event -> bool)
    ensures FormedCaught(e, envs, bad) <==> exists c :: YieldsIn(e, c, envs) && bad(Formed(c, e))
  {
    if c :| YieldsIn(e, c, envs) && bad(Formed(c, e)) {
      var env :| envs(env) && Evaluate(e, env) == Handle(c);
      ShownAlone(Formed(c, e), bad);
      assert OwnEvent(e, env) == {Formed(c, e)};
    }
  }

  lemma CalledIff(e: Expr, envs: Env -> bool, bad: Event -> bool)
    ensures CallCaught(e, envs, bad) <==> exists c :: YieldsIn(e, c, envs) && bad(Called(c, e))
  {
    if c :| YieldsIn(e, c, envs) && bad(Called(c, e)) {
      var env :| envs(env) && Evaluate(e, env) == Handle(c);
      ShownAlone(Called(c, e), bad);
      assert CallEvent(e, env) == {Called(c, e)};
    }
  }

  lemma EscapedIff(e: Expr, use: Use, envs: Env -> bool, bad: Event -> bool)
    ensures EscapeCaught(e, use, envs, bad) <==> exists c :: YieldsIn(e, c, envs) && bad(Escaped(c, e, use))
  {
    if c :| YieldsIn(e, c, envs) && bad(Escaped(c, e, use)) {
      var env :| envs(env) && Evaluate(e, env) == Handle(c);
      ShownAlone(Escaped(c, e, use), bad);
      assert EscapeEvent(e, use, env) == {Escaped(c, e, use)};
    }
  }

  // ---- expressions ---------------------------------------------------------------------

  lemma NameParts(e: Expr, outer: Option<Expr>, use: Option<Use>, envs: Env -> bool, bad: Event -> bool)
    requires e.Name?
    ensures Caught(e, outer, use, envs, bad)
            <==> FormedCaught(e, envs, bad) || (use.Some? && EscapeCaught(e, use.value, envs, bad))
  {
    forall env
      ensures ShownIn(AllEvents(e, outer, use, env), bad)
              <==> ShownIn(OwnEvent(e, env), bad) || (use.Some? && ShownIn(EscapeEvent(e, use.value, env), bad))
    {
      if use.Some? {
        ShownUnion(OwnEvent(e, env), EscapeEvent(e, use.value, env), bad);
      } else {
        assert AllEvents(e, outer, use, env) == OwnEvent(e, env);
      }
    }
  }

  lemma AttrParts(e: Expr, outer: Option<Expr>, use: Option<Use>, envs: Env -> bool, bad: Event -> bool)
    requires e.Attr?
    ensures Caught(e, outer, use, envs, bad)
            <==> || Caught(e.base, None, None, envs, bad) || FormedCaught(e, envs, bad)
                 || (use.Some? && EscapeCaught(e, use.value, envs, bad))
  {
    forall env
      ensures ShownIn(AllEvents(e, outer, use, env), bad)
              <==> || ShownIn(AllEvents(e.base, None, None, env), bad) || ShownIn(OwnEvent(e, env), bad)
                   || (use.Some? && ShownIn(EscapeEvent(e, use.value, env), bad))
    {
      var inner, own := Events(e.base, None, env), OwnEvent(e, env);
      assert AllEvents(e.base, None, None, env) == inner;
      ShownUnion(inner, own, bad);
      if use.Some? {
        ShownUnion(inner + own, EscapeEvent(e, use.value, env), bad);
      } else {
        assert AllEvents(e, outer, use, env) == inner + own;
      }
    }
  }

  /** What an operator evaluates to is bad at its operands, when only events of paths are bad. */
  lemma OpParts(e: Expr, outer: Option<Expr>, use: Option<Use>, envs: Env -> bool, bad: Event -> bool)
    requires e.Op? && forall ev | bad(ev) :: IsPath(ev.source)
    ensures Caught(e, outer, use, envs, bad) <==> UsedCaught(e.operands, None, Operand, envs, bad)
  {
    forall env
      ensures ShownIn(AllEvents(e, outer, use, env), bad) <==> ShownIn(UsedEvents(e.operands, None, Operand, env), bad)
    {
      var inner := UsedEvents(e.operands, None, Operand, env);
      if use.Some? {
        ShownUnion(inner, EscapeEvent(e, use.value, env), bad);
      } else {
        assert AllEvents(e, outer, use, env) == inner;
      }
    }
  }

  lemma FirstParts(es: seq<Expr>, outer: Option<Expr>, use: Use, envs: Env -> bool, bad: Event -> bool)
    requires es != []
    ensures UsedCaught(es, outer, use, envs, bad)
            <==> Caught(es[0], outer, Some(use), envs, bad) || UsedCaught(es[1..], outer, use, envs, bad)
  {
    forall env
      ensures ShownIn(UsedEvents(es, outer, use, env), bad)
              <==> || ShownIn(AllEvents(es[0], outer, Some(use), env), bad)
                   || ShownIn(UsedEvents(es[1..], outer, use, env), bad)
    {
      ShownUnion(AllEvents(es[0], outer, Some(use), env), UsedEvents(es[1..], outer, use, env), bad);
    }
  }

  /** The events of a call: of its function, the call itself, its arguments and its keywords. */
  lemma CallShown(e: Expr, outer: Option<Expr>, use: Option<Use>, env: Env, bad: Event -> bool)
    requires e.Call?
    ensures ShownIn(AllEvents(e, outer, use, env), bad)
            <==> || ShownIn(AllEvents(e.func, None, None, env), bad) || ShownIn(CallEvent(e.func, env), bad)
                 || ShownIn(UsedEvents(e.args, InnerCallee(e), ArgumentUse(e, outer), env), bad)
                 || ShownIn(UsedEvents(e.keywords, None, Argument(e.func, false, outer), env), bad)
  {
    var inner, call := Events(e.func, None, env), CallEvent(e.func, env);
    var args := UsedEvents(e.args, InnerCallee(e), ArgumentUse(e, outer), env);
    var keywords := UsedEvents(e.keywords, None, Argument(e.func, false, outer), env);
    assert AllEvents(e.func, None, None, env) == inner;
    assert Events(e, outer, env) == inner + call + args + keywords;
    assert AllEvents(e, outer, use, env) == inner + call + args + keywords;
    ShownUnion(inner, call, bad);
    ShownUnion(inner + call, args, bad);
    ShownUnion(inner + call + args, keywords, bad);
  }

  lemma CallParts(e: Expr, outer: Option<Expr>, use: Option<Use>, envs: Env -> bool, bad: Event -> bool)
    requires e.Call?
    ensures Caught(e, outer, use, envs, bad)
            <==> || Caught(e.func, None, None, envs, bad) || CallCaught(e.func, envs, bad)
                 || UsedCaught(e.args, InnerCallee(e), ArgumentUse(e, outer), envs, bad)
                 || UsedCaught(e.keywords, None, Argument(e.func, false, outer), envs, bad)
  {
    forall env
      ensures ShownIn(AllEvents(e, outer, use, env), bad)
              <==> || ShownIn(AllEvents(e.func, None, None, env), bad) || ShownIn(CallEvent(e.func, env), bad)
                   || ShownIn(UsedEvents(e.args, InnerCallee(e), ArgumentUse(e, outer), env), bad)
                   || ShownIn(UsedEvents(e.keywords, None, Argument(e.func, false, outer), env), bad)
    {
      CallShown(e, outer, use, env, bad);
    }
  }

  // ---- statements ----------------------------------------------------------------------

  lemma TargetsParts(targets: seq<Target>, envs: Env -> bool, bad: Event -> bool)
    requires targets != []
    ensures TargetsCaught(targets, envs, bad)
            <==> TargetsCaught([targets[0]], envs, bad) || TargetsCaught(targets[1..], envs, bad)
  {
    var first := [targets[0]];
    forall env
      ensures ShownIn(TargetEvents(targets, env), bad)
              <==> ShownIn(TargetEvents(first, env), bad) || ShownIn(TargetEvents(targets[1..], env), bad)
    {
      assert first[1..] == [];
      ShownUnion(TargetEvents(first, env), TargetEvents(targets[1..], env), bad);
      assert TargetEvents(targets, env) == TargetEvents(first, env) + TargetEvents(targets[1..], env);
    }
  }

  function TargetOwn(t: Target, env: Env): set<Event> {
    match t
    case NameTarget(_) => {}
    case AttrTarget(base, attr) => AllEvents(Attr(base, attr), None, None, env)
    case ItemTarget(base, index) => UsedEvents([base, index], None, Operand, env)
  }

  lemma TargetParts(t: Target, envs: Env -> bool, bad: Event -> bool)
    ensures t.NameTarget? ==> !TargetsCaught([t], envs, bad)
    ensures t.AttrTarget? ==> (TargetsCaught([t], envs, bad) <==> Caught(Attr(t.base, t.attr), None, None, envs, bad))
    ensures t.ItemTarget? ==>
              (TargetsCaught([t], envs, bad) <==> UsedCaught([t.base, t.index], None, Operand, envs, bad))
  {
    assert [t][1..] == [];
    forall env
      ensures TargetEvents([t], env) == TargetOwn(t, env)
    {
    }
  }

  /** How the value of an assignment is used. */
  function AssignUse(targets: seq<Target>): Option<Use> {
    if AllNames(targets) then None else Some(Stored)
  }

  lemma AssignParts(s: Stmt, envs: Env -> bool, bad: Event -> bool)
    requires s.Assign?
    ensures StmtCaught(s, envs, bad)
            <==> Caught(s.value, None, AssignUse(s.targets), envs, bad) || TargetsCaught(s.targets, envs, bad)
  {
    forall env
      ensures ShownIn(StmtEvents(s, env), bad)
              <==> || ShownIn(AllEvents(s.value, None, AssignUse(s.targets), env), bad)
                   || ShownIn(TargetEvents(s.targets, env), bad)
    {
      ShownUnion(AllEvents(s.value, None, AssignUse(s.targets), env), TargetEvents(s.targets, env), bad);
      assert StmtEvents(s, env)
             == AllEvents(s.value, None, AssignUse(s.targets), env) + TargetEvents(s.targets, env);
    }
  }

  /** The expression any other statement uses as a value, and how. */
  function Subject(s: Stmt): (Expr, Use)
    requires !s.Import? && !s.Assign?
  {
    match s
    case Evaluated(e) => (e, Discarded)
    case Return(e) => (e, Returned)
    case If(cond, _, _) => (cond, Tested)
    case While(cond, _) => (cond, Tested)
    case For(_, iter, _) => (iter, Iterated)
  }

  lemma SubjectParts(s: Stmt, envs: Env -> bool, bad: Event -> bool)
    requires !s.Import? && !s.Assign?
    ensures StmtCaught(s, envs, bad) <==> UsedCaught([Subject(s).0], None, Subject(s).1, envs, bad)
  {
    forall env
      ensures StmtEvents(s, env) == UsedEvents([Subject(s).0], None, Subject(s).1, env)
    {
    }
  }

  /** The statements of a program, nested ones included. */
  function Statements(program: seq<Stmt>): seq<Stmt>
    decreases program
  {
    if program == [] then []
    else
      var rest := Statements(program[1..]);
      [program[0]]
      + (match program[0]
         case If(_, thn, els) => Statements(thn) + Statements(els)
         case While(_, body) => Statements(body)
         case For(_, _, body) => Statements(body)
         case _ => [])
      + rest
  }
}
