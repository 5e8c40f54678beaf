/**
  The scripts that the artifact policy reads: a small Python subset and what running it
  does to names.

  A value is either `Plain` or a `Handle` that remembers the attribute chain it was read
  through.  Call results are `Plain`.  Two places are pessimistic on purpose: an operator or a
  container that consumes a bpy handle keeps it, and iterating over a handle yields it, so
  nothing below holds merely because the semantics forgets a handle.
 */
module ArtifactLanguage {
  import opened Common

  type Chain = seq<string>

  datatype Expr =
    | Name(id: string)
    | Attr(base: Expr, attr: string)
    | Call(func: Expr, args: seq<Expr>, keywords: seq<Expr>)
    | Op(operands: seq<Expr>) // comparison, container display, subscript, arithmetic, ...
    | Literal

  datatype Target =
    | NameTarget(id: string)
    | AttrTarget(base: Expr, attr: string)
    | ItemTarget(base: Expr, index: Expr)

  /** One name of an import statement. */
  datatype ImportSpec =
    | Module(path: seq<string>, asName: Option<string>)
    | Member(level: nat, path: seq<string>, name: string, asName: Option<string>)

  datatype Stmt =
    | Import(spec: ImportSpec)
    | Assign(targets: seq<Target>, value: Expr)
    | Evaluated(e: Expr)
    | Return(e: Expr)
    | If(cond: Expr, thn: seq<Stmt>, els: seq<Stmt>)
    | While(cond: Expr, body: seq<Stmt>)
    | For(target: string, iter: Expr, body: seq<Stmt>)

  function Root(path: seq<string>): string {
    if path == [] then "" else path[0]
  }

  /** The local name and the chain an import statement binds. */
  function ImportBinding(spec: ImportSpec): (string, Chain) {
    match spec
    case Module(path, Some(name)) => (name, path)
    case Module(path, None) => (Root(path), [Root(path)])
    case Member(_, path, name, asName) =>
      (if asName.Some? then asName.value else name, path + [name])
  }

  // ---- values -------------------------------------------------------------------------

  datatype Value = Plain | Handle(chain: Chain)

  type Env = map<string, Value>

  /** What a script finds bound when it starts: the worker supplies these without an import.  Its helper
      functions are plain values, like builtins. */
  const WORKER_NAMESPACE: Env := map[
    "bpy" := Handle(["bpy"]),
    "math" := Handle(["math"]),
    "mathutils" := Handle(["mathutils"]),
    "Vector" := Handle(["mathutils", "Vector"])
  ]

  predicate IsBpy(c: Chain) {
    c != [] && c[0] == "bpy"
  }

  predicate HoldsBpy(v: Value) {
    v.Handle? && IsBpy(v.chain)
  }

  function Evaluate(e: Expr, env: Env): Value
    decreases e, 1
  {
    match e
    // A name that neither the worker nor a statement bound is a builtin (or raises): never a handle.
    case Name(id) => if id in env then env[id] else Plain
    case Attr(base, attr) =>
      (match Evaluate(base, env)
       case Handle(c) => Handle(c + [attr])
       case Plain => Plain)
    case Call(_, _, _) => Plain
    case Op(operands) => FirstBpy(operands, env)
    case Literal => Plain
  }

  function FirstBpy(es: seq<Expr>, env: Env): Value
    decreases es, 0
  {
    if es == [] then Plain
    else
      var v := Evaluate(es[0], env);
      if HoldsBpy(v) then v else FirstBpy(es[1..], env)
  }

  // ---- what an evaluation does with handles ---------------------------------------------

  /** Where a handle ends up when it is used as a value.  An argument is `sole` when the call has no other; `enclosing`
      is the callee of the call whose only argument is the call it is passed to, if there is one. */
  datatype Use =
    | Argument(callee: Expr, sole: bool, enclosing: Option<Expr>)
    | Operand
    | Returned
    | Stored
    | Iterated
    | Tested
    | Discarded

  datatype Event =
    | Formed(chain: Chain, source: Expr)
    | Called(chain: Chain, source: Expr)
    | Escaped(chain: Chain, source: Expr, use: Use)

  function OwnEvent(e: Expr, env: Env): set<Event> {
    var v := Evaluate(e, env);
    if v.Handle? then {Formed(v.chain, e)} else {}
  }

  function EscapeEvent(e: Expr, use: Use, env: Env): set<Event> {
    var v := Evaluate(e, env);
    if v.Handle? then {Escaped(v.chain, e, use)} else {}
  }

  function CallEvent(func: Expr, env: Env): set<Event> {
    var v := Evaluate(func, env);
    if v.Handle? then {Called(v.chain, func)} else {}
  }

  /** All there is to a call is one positional argument. */
  predicate Sole(args: seq<Expr>, keywords: seq<Expr>) {
    args != [] && |args| + |keywords| == 1
  }

  /** The callee, for the argument of a call that has no other. */
  function InnerCallee(call: Expr): Option<Expr>
    requires call.Call?
  {
    if Sole(call.args, call.keywords) then Some(call.func) else None
  }

  function ArgumentUse(call: Expr, outer: Option<Expr>): Use
    requires call.Call?
  {
    Argument(call.func, Sole(call.args, call.keywords), outer)
  }

  /** Everything evaluating `e` does; `outer` is the callee of the call whose only argument
      is `e`. */
  function Events(e: Expr, outer: Option<Expr>, env: Env): set<Event>
    decreases e, 1
  {
    match e
    case Name(_) => OwnEvent(e, env)
    case Attr(base, _) => Events(base, None, env) + OwnEvent(e, env)
    case Call(func, args, keywords) =>
      Events(func, None, env)
      + CallEvent(func, env)
      + UsedEvents(args, InnerCallee(e), ArgumentUse(e, outer), env)
      + UsedEvents(keywords, None, Argument(func, false, outer), env)
    case Op(operands) => UsedEvents(operands, None, Operand, env)
    case Literal => {}
  }

  function UsedEvents(es: seq<Expr>, outer: Option<Expr>, use: Use, env: Env): set<Event>
    decreases es, 0
  {
    if es == [] then {}
    else Events(es[0], outer, env) + EscapeEvent(es[0], use, env) + UsedEvents(es[1..], outer, use, env)
  }

  function TargetEvents(targets: seq<Target>, env: Env): set<Event> {
    if targets == [] then {}
    else
      (match targets[0]
       case NameTarget(_) => {}
       case AttrTarget(base, attr) => Events(Attr(base, attr), None, env)
       case ItemTarget(base, index) => UsedEvents([base, index], None, Operand, env))
      + TargetEvents(targets[1..], env)
  }

  predicate AllNames(targets: seq<Target>) {
    forall t | t in targets :: t.NameTarget?
  }

  function StmtEvents(s: Stmt, env: Env): set<Event> {
    match s
    case Import(_) => {}
    case Assign(targets, value) =>
      Events(value, None, env)
      + (if AllNames(targets) then {} else EscapeEvent(value, Stored, env))
      + TargetEvents(targets, env)
    case Evaluated(e) => UsedEvents([e], None, Discarded, env)
    case Return(e) => UsedEvents([e], None, Returned, env)
    case If(cond, _, _) => UsedEvents([cond], None, Tested, env)
    case While(cond, _) => UsedEvents([cond], None, Tested, env)
    case For(_, iter, _) => UsedEvents([iter], None, Iterated, env)
  }

  // ---- runs -----------------------------------------------------------------------------

  datatype Config = Config(todo: seq<Stmt>, env: Env)

  function BindAll(targets: seq<Target>, v: Value, env: Env): Env {
    if targets == [] then env
    else
      var env' := if targets[0].NameTarget? then env[targets[0].id := v] else env;
      BindAll(targets[1..], v, env')
  }

  /** One step of a run; branches and loop exits are taken either way. */
  ghost predicate Step(c: Config, d: Config) {
    && c.todo != []
    && var rest := c.todo[1..];
       match c.todo[0]
       case Import(spec) =>
         var (name, chain) := ImportBinding(spec);
         d == Config(rest, c.env[name := Handle(chain)])
       case Assign(targets, value) =>
         d == Config(rest, BindAll(targets, Evaluate(value, c.env), c.env))
       case Evaluated(_) => d == Config(rest, c.env)
       case Return(_) => d == Config([], c.env)
       case If(_, thn, els) => d == Config(thn + rest, c.env) || d == Config(els + rest, c.env)
       case While(_, body) => d == Config(body + c.todo, c.env) || d == Config(rest, c.env)
       case For(target, iter, body) =>
         || d == Config(body + c.todo, c.env[target := Evaluate(iter, c.env)])
         || d == Config(rest, c.env)
  }

  ghost predicate Run(program: seq<Stmt>, run: seq<Config>) {
    && run != []
    && run[0] == Config(program, WORKER_NAMESPACE)
    && forall i | 0 < i < |run| :: Step(run[i - 1], run[i])
  }
}
