/**
  The alias fixpoint: which attribute chains a name may stand for.

  The loop is flow insensitive and keeps every chain it ever finds.  Two things about it are
  not obvious from its text and are proved here: it stops exactly when no live cycle of alias
  assignments lengthens a chain, and what it returns is below every closed map that keeps
  the default chain of an unimported `bpy` or `json`.
 */
module AliasBindings {
  import opened Common
  import opened ArtifactLanguage

  type Bindings = map<string, set<Chain>>

  /** An assignment as the loop sees it: the value and its simple-name targets. */
  datatype AliasNode = AliasNode(targets: seq<string>, value: Expr)

  predicate TrackedRoot(name: string) {
    name == "bpy" || name == "json"
  }

  predicate Tracked(c: Chain) {
    c != [] && TrackedRoot(c[0])
  }

  /** An unbound name stands for itself. */
  function Held(b: Bindings, name: string): set<Chain> {
    if name in b then b[name] else {[name]}
  }

  function Resolved(e: Expr, b: Bindings): set<Chain> {
    match e
    case Name(id) => Held(b, id)
    case Attr(base, attr) => set prefix | prefix in Resolved(base, b) :: prefix + [attr]
    case Call(_, _, _) => {}
    case Op(_) => {}
    case Literal => {}
  }

  function AliasChains(e: Expr, b: Bindings): set<Chain> {
    set c | c in Resolved(e, b) && Tracked(c)
  }

  // ---- what the loop is for ---------------------------------------------------------------

  ghost predicate Closed(nodes: seq<AliasNode>, b: Bindings) {
    forall node, t | node in nodes && t in node.targets && AliasChains(node.value, b) != {} ::
      t in b && AliasChains(node.value, b) <= b[t]
  }

  ghost predicate Within(b: Bindings, m: Bindings) {
    forall n | n in b :: n in m && b[n] <= m[n]
  }

  /** A tracked root that no import binds still stands for itself. */
  ghost predicate RootsKept(seed: Bindings, m: Bindings) {
    forall r | TrackedRoot(r) && r in m && r !in seed :: [r] in m[r]
  }

  ghost predicate Admissible(seed: Bindings, nodes: seq<AliasNode>, m: Bindings) {
    Within(seed, m) && Closed(nodes, m) && RootsKept(seed, m)
  }

  /** No tracked root is rebound by an alias unless an import binds it. */
  ghost predicate RootsUntouched(seed: Bindings, nodes: seq<AliasNode>) {
    forall r | TrackedRoot(r) && r !in seed :: r !in AllTargets(nodes)
  }

  ghost function AllTargets(nodes: seq<AliasNode>): set<string> {
    set node, t | node in nodes && t in node.targets :: t
  }

  lemma TargetListed(nodes: seq<AliasNode>, node: AliasNode, t: string)
    requires node in nodes && t in node.targets
    ensures t in AllTargets(nodes)
  {
  }

  /** Imports never bind the empty chain. */
  ghost predicate WellSeeded(seed: Bindings) {
    forall n, c | n in seed && c in seed[n] :: c != []
  }

  // ---- paths ----------------------------------------------------------------------------

  datatype Path = Path(name: string, attrs: seq<string>)

  function PathOf(e: Expr): Option<Path> {
    match e
    case Name(id) => Some(Path(id, []))
    case Attr(base, attr) =>
      (match PathOf(base)
       case Some(p) => Some(Path(p.name, p.attrs + [attr]))
       case None => None)
    case Call(_, _, _) => None
    case Op(_) => None
    case Literal => None
  }

  lemma {:induction false} ResolvedSplits(e: Expr, b: Bindings, c: Chain) returns (p: Chain)
    requires c in Resolved(e, b)
    ensures PathOf(e).Some? && p in Held(b, PathOf(e).value.name) && c == p + PathOf(e).value.attrs
  {
    match e
    case Name(id) =>
      p := c;
    case Attr(base, attr) =>
      var prefix :| prefix in Resolved(base, b) && c == prefix + [attr];
      p := ResolvedSplits(base, b, prefix);
      assert (p + PathOf(base).value.attrs) + [attr] == p + PathOf(e).value.attrs;
  }

  lemma {:induction false} PathResolves(e: Expr, b: Bindings, p: Chain)
    requires PathOf(e).Some? && p in Held(b, PathOf(e).value.name)
    ensures p + PathOf(e).value.attrs in Resolved(e, b)
  {
    match e
    case Name(id) =>
      assert p + [] == p;
    case Attr(base, attr) =>
      PathResolves(base, b, p);
      assert (p + PathOf(base).value.attrs) + [attr] == p + PathOf(e).value.attrs;
  }

  // ---- liveness and lengthening cycles -------------------------------------------------------

  ghost predicate Hop(nodes: seq<AliasNode>, from: string, i: nat, to: string) {
    && i < |nodes|
    && PathOf(nodes[i].value).Some?
    && PathOf(nodes[i].value).value.name == from
    && to in nodes[i].targets
  }

  datatype Leg = Leg(node: nat, to: string)

  /** A walk along alias assignments: each leg copies what its base name holds to `to`. */
  ghost predicate Walk(nodes: seq<AliasNode>, from: string, legs: seq<Leg>, to: string)
    decreases |legs|
  {
    if legs == [] then from == to
    else Hop(nodes, from, legs[0].node, legs[0].to) && Walk(nodes, legs[0].to, legs[1..], to)
  }

  function AttrsAt(nodes: seq<AliasNode>, i: nat): seq<string> {
    if i < |nodes| && PathOf(nodes[i].value).Some? then PathOf(nodes[i].value).value.attrs else []
  }

  /** The attributes a chain gains on the way. */
  function Gained(nodes: seq<AliasNode>, legs: seq<Leg>): seq<string>
    decreases |legs|
  {
    if legs == [] then [] else AttrsAt(nodes, legs[0].node) + Gained(nodes, legs[1..])
  }

  ghost predicate Seeded(seed: Bindings, name: string) {
    if name in seed then exists c :: c in seed[name] && Tracked(c) else TrackedRoot(name)
  }

  /** Names that come to hold a tracked chain. */
  ghost predicate Live(seed: Bindings, nodes: seq<AliasNode>, name: string) {
    exists from, legs :: Seeded(seed, from) && Walk(nodes, from, legs, name)
  }

  ghost predicate LengtheningCycle(nodes: seq<AliasNode>, name: string, legs: seq<Leg>) {
    Walk(nodes, name, legs, name) && Gained(nodes, legs) != []
  }

  ghost predicate LiveLengtheningCycle(seed: Bindings, nodes: seq<AliasNode>) {
    exists name, legs :: Live(seed, nodes, name) && LengtheningCycle(nodes, name, legs)
  }

  lemma {:induction false} WalkExtends(nodes: seq<AliasNode>, from: string, legs: seq<Leg>, mid: string, leg: Leg)
    requires Walk(nodes, from, legs, mid) && Hop(nodes, mid, leg.node, leg.to)
    ensures Walk(nodes, from, legs + [leg], leg.to)
    decreases |legs|
  {
    if legs == [] {
      assert Walk(nodes, leg.to, [], leg.to);
      assert ([] + [leg])[1..] == [];
    } else {
      WalkExtends(nodes, legs[0].to, legs[1..], mid, leg);
      assert (legs + [leg])[1..] == legs[1..] + [leg];
    }
  }

  lemma LiveHop(seed: Bindings, nodes: seq<AliasNode>, from: string, i: nat, to: string)
    requires Live(seed, nodes, from) && Hop(nodes, from, i, to)
    ensures Live(seed, nodes, to)
  {
    var s, legs :| Seeded(seed, s) && Walk(nodes, s, legs, from);
    WalkExtends(nodes, s, legs, from, Leg(i, to));
  }

  // ---- chains travel along walks ----------------------------------------------------------

  lemma HopTravels(nodes: seq<AliasNode>, m: Bindings, from: string, c: Chain, i: nat, to: string)
    requires Closed(nodes, m) && Hop(nodes, from, i, to) && c in Held(m, from) && Tracked(c)
    ensures to in m && c + AttrsAt(nodes, i) in m[to] && Tracked(c + AttrsAt(nodes, i))
  {
    PathResolves(nodes[i].value, m, c);
    assert (c + AttrsAt(nodes, i))[0] == c[0];
    assert c + AttrsAt(nodes, i) in AliasChains(nodes[i].value, m);
  }

  lemma GainedSplits(nodes: seq<AliasNode>, legs: seq<Leg>, c: Chain)
    requires legs != []
    ensures c + Gained(nodes, legs) == (c + AttrsAt(nodes, legs[0].node)) + Gained(nodes, legs[1..])
  {
    var first, rest := AttrsAt(nodes, legs[0].node), Gained(nodes, legs[1..]);
    assert c + (first + rest) == (c + first) + rest;
  }

  lemma {:induction false} ChainsTravel(nodes: seq<AliasNode>, m: Bindings, from: string, c: Chain, legs: seq<Leg>,
                                        to: string)
    requires Closed(nodes, m) && Walk(nodes, from, legs, to)
    requires c in Held(m, from) && Tracked(c)
    ensures c + Gained(nodes, legs) in Held(m, to)
    ensures legs != [] ==> to in m
    decreases |legs|
  {
    if legs == [] {
      assert c + [] == c;
    } else {
      var attrs := AttrsAt(nodes, legs[0].node);
      HopTravels(nodes, m, from, c, legs[0].node, legs[0].to);
      ChainsTravel(nodes, m, legs[0].to, c + attrs, legs[1..], to);
      GainedSplits(nodes, legs, c);
    }
  }

  /** A chain a walk can start from: a tracked import, or an unimported root itself. */
  ghost predicate Start(seed: Bindings, name: string, p: Chain) {
    Tracked(p) && if name in seed then p in seed[name] else p == [name]
  }

  ghost predicate Carries(seed: Bindings, nodes: seq<AliasNode>, from: string, p: Chain, legs: seq<Leg>,
                          name: string, c: Chain) {
    Start(seed, from, p) && Walk(nodes, from, legs, name) && c == p + Gained(nodes, legs)
  }

  /** The reference definition: alias assignments carry `c` to `name`. */
  ghost predicate Derived(seed: Bindings, nodes: seq<AliasNode>, name: string, c: Chain) {
    exists from, p, legs :: Carries(seed, nodes, from, p, legs, name, c) && (name in seed || legs != [])
  }

  ghost predicate Explained(seed: Bindings, nodes: seq<AliasNode>, name: string, c: Chain) {
    (name in seed && c in seed[name]) || Derived(seed, nodes, name, c)
  }

  lemma {:induction false} GainedExtends(nodes: seq<AliasNode>, legs: seq<Leg>, leg: Leg)
    ensures Gained(nodes, legs + [leg]) == Gained(nodes, legs) + AttrsAt(nodes, leg.node)
    decreases |legs|
  {
    if legs == [] {
      assert ([] + [leg])[1..] == [];
    } else {
      GainedExtends(nodes, legs[1..], leg);
      assert (legs + [leg])[1..] == legs[1..] + [leg] && (legs + [leg])[0] == legs[0];
      var first, rest := AttrsAt(nodes, legs[0].node), Gained(nodes, legs[1..]);
      assert first + (rest + AttrsAt(nodes, leg.node)) == (first + rest) + AttrsAt(nodes, leg.node);
    }
  }

  // ---- the loop -------------------------------------------------------------------------

  /** Every state of the loop. */
  ghost predicate LoopState(seed: Bindings, nodes: seq<AliasNode>, b: Bindings) {
    && Within(seed, b)
    && (forall n, c | n in b && c in b[n] :: Explained(seed, nodes, n, c))
    && (forall n | n in b && n !in seed :: b[n] != {} && n in AllTargets(nodes))
  }

  lemma CarriedAcross(seed: Bindings, nodes: seq<AliasNode>, from: string, p: Chain, legs: seq<Leg>, mid: string,
                      c: Chain, i: nat, to: string)
    requires Carries(seed, nodes, from, p, legs, mid, c) && Hop(nodes, mid, i, to)
    ensures Carries(seed, nodes, from, p, legs + [Leg(i, to)], to, c + AttrsAt(nodes, i))
    ensures Derived(seed, nodes, to, c + AttrsAt(nodes, i))
  {
    WalkExtends(nodes, from, legs, mid, Leg(i, to));
    GainedExtends(nodes, legs, Leg(i, to));
    GainsOneMore(p, Gained(nodes, legs), AttrsAt(nodes, i));
    assert Carries(seed, nodes, from, p, legs + [Leg(i, to)], to, c + AttrsAt(nodes, i));
  }

  lemma GainsOneMore(p: Chain, gained: Chain, more: Chain)
    ensures (p + gained) + more == p + (gained + more)
  {
  }

  /** What one assignment adds is carried by a walk. */
  lemma AssignmentDerives(seed: Bindings, nodes: seq<AliasNode>, b: Bindings, node: AliasNode, to: string, c: Chain)
    requires WellSeeded(seed) && LoopState(seed, nodes, b)
    requires node in nodes && to in node.targets && c in AliasChains(node.value, b)
    ensures Derived(seed, nodes, to, c)
  {
    var i :| 0 <= i < |nodes| && nodes[i] == node;
    var q := ResolvedSplits(node.value, b, c);
    var name := PathOf(node.value).value.name;
    assert Hop(nodes, name, i, to);
    if name in b && !(name in seed && q in seed[name]) {
      var from, p, legs :| Carries(seed, nodes, from, p, legs, name, q) && (name in seed || legs != []);
      CarriedAcross(seed, nodes, from, p, legs, name, q, i, to);
    } else {
      assert q != [] && q[0] == c[0];
      assert q + [] == q;
      assert Carries(seed, nodes, name, q, [], name, q);
      CarriedAcross(seed, nodes, name, q, [], name, q, i, to);
    }
  }

  lemma DerivedInEvery(seed: Bindings, nodes: seq<AliasNode>, m: Bindings, name: string, c: Chain)
    requires Admissible(seed, nodes, m) && Derived(seed, nodes, name, c)
    ensures name in m && c in m[name]
  {
    var from, p, legs :| Carries(seed, nodes, from, p, legs, name, c) && (name in seed || legs != []);
    ChainsTravel(nodes, m, from, p, legs, name);
  }

  lemma StateBelow(seed: Bindings, nodes: seq<AliasNode>, b: Bindings, m: Bindings)
    requires LoopState(seed, nodes, b) && Admissible(seed, nodes, m)
    ensures Within(b, m)
  {
    forall n | n in b
      ensures n in m && b[n] <= m[n]
    {
      forall c | c in b[n]
        ensures n in m && c in m[n]
      {
        if !(n in seed && c in seed[n]) {
          DerivedInEvery(seed, nodes, m, n, c);
        }
      }
      if n !in seed {
        var c :| c in b[n];
      }
    }
  }

  ghost function Pairs(b: Bindings): set<(string, Chain)> {
    set n, c | n in b && c in b[n] :: (n, c)
  }

  lemma PairsWithin(b: Bindings, m: Bindings)
    requires Within(b, m)
    ensures Pairs(b) <= Pairs(m)
  {
  }

  lemma SmallerSet<T>(a: set<T>, b: set<T>)
    requires a < b
    ensures |a| < |b|
  {
    assert b == a + (b - a);
  }

  /** Adding chains to one name. */
  function Extended(b: Bindings, target: string, chains: set<Chain>): (r: Bindings)
    ensures Within(b, r)
    ensures target in r && chains <= r[target]
    ensures r.Keys == b.Keys + {target}
    ensures target in b && chains <= b[target] ==> r == b
  {
    var r := b[target := (if target in b then b[target] else {}) + chains];
    assert target in b && chains <= b[target] ==> r[target] == b[target];
    r
  }

  lemma ExtendedState(seed: Bindings, nodes: seq<AliasNode>, b: Bindings, target: string, chains: set<Chain>)
    requires LoopState(seed, nodes, b) && chains != {} && target in AllTargets(nodes)
    requires forall c | c in chains :: Derived(seed, nodes, target, c)
    ensures LoopState(seed, nodes, Extended(b, target, chains))
  {
    var next := Extended(b, target, chains);
    forall n, c | n in next && c in next[n]
      ensures Explained(seed, nodes, n, c)
    {
      assert (n in b && c in b[n]) || (n == target && c in chains);
    }
  }

  /** The map after one assignment has added its chains to the listed targets. */
  function BoundTo(targets: seq<string>, chains: set<Chain>, b: Bindings): Bindings {
    if targets == [] then b
    else Extended(BoundTo(targets[..|targets| - 1], chains, b), targets[|targets| - 1], chains)
  }

  lemma {:induction false} BoundToGrows(targets: seq<string>, chains: set<Chain>, b: Bindings)
    ensures Within(b, BoundTo(targets, chains, b))
    ensures BoundTo(targets, chains, b) == b ==> forall t | t in targets :: t in b && chains <= b[t]
  {
    if targets != [] {
      var init, last := targets[..|targets| - 1], targets[|targets| - 1];
      var mid := BoundTo(init, chains, b);
      BoundToGrows(init, chains, b);
      if BoundTo(targets, chains, b) == b {
        WithinBothWays(b, mid);
        assert targets == init + [last];
      }
    }
  }

  lemma WithinBothWays(b: Bindings, m: Bindings)
    requires Within(b, m) && Within(m, b)
    ensures b == m
  {
    assert b.Keys == m.Keys;
    assert forall n | n in b :: b[n] == m[n];
  }

  lemma {:induction false} BoundToKeepsState(seed: Bindings, nodes: seq<AliasNode>, node: AliasNode, k: nat,
                                             start: Bindings)
    requires WellSeeded(seed) && node in nodes && k <= |node.targets| && LoopState(seed, nodes, start)
    requires AliasChains(node.value, start) != {}
    ensures LoopState(seed, nodes, BoundTo(node.targets[..k], AliasChains(node.value, start), start))
  {
    if k > 0 {
      BoundToKeepsState(seed, nodes, node, k - 1, start);
      assert node.targets[..k][..k - 1] == node.targets[..k - 1];
      var target := node.targets[k - 1];
      TargetListed(nodes, node, target);
      AssignmentDerivesAll(seed, nodes, start, node, target);
      ExtendedState(seed, nodes, BoundTo(node.targets[..k - 1], AliasChains(node.value, start), start), target,
                    AliasChains(node.value, start));
    }
  }

  lemma ChangedGrowsPairs(b: Bindings, m: Bindings)
    requires Within(b, m) && b != m && forall n | n in m && n !in b :: m[n] != {}
    ensures Pairs(b) < Pairs(m)
  {
    PairsWithin(b, m);
    if Pairs(m) <= Pairs(b) {
      forall n | n in m
        ensures n in b && m[n] <= b[n]
      {
        forall c | c in m[n]
          ensures n in b && c in b[n]
        {
          assert (n, c) in Pairs(m);
          assert (n, c) in Pairs(b);
        }
      }
      WithinBothWays(b, m);
      assert false;
    }
  }

  lemma BoundToNext(targets: seq<string>, k: nat, chains: set<Chain>, b: Bindings)
    requires k < |targets|
    ensures BoundTo(targets[..k + 1], chains, b) == Extended(BoundTo(targets[..k], chains, b), targets[k], chains)
  {
    assert targets[..k + 1][..k] == targets[..k];
  }

  /** The set of a name changes its size exactly when the map changes. */
  lemma ExtensionChanges(start: Bindings, b: Bindings, target: string, chains: set<Chain>)
    requires Within(start, b) && chains != {}
    ensures Within(start, Extended(b, target, chains))
    ensures var known := if target in b then b[target] else {};
            (|Extended(b, target, chains)[target]| != |known| || b != start) <==> Extended(b, target, chains) != start
  {
    var known := if target in b then b[target] else {};
    var next := Extended(b, target, chains);
    if next == start {
      WithinBothWays(b, next);
    }
    if |next[target]| == |known| {
      SameSize(known, next[target]);
    }
  }

  /** One assignment: its chains are resolved once, then added to every simple-name target. */
  method BindTargets(node: AliasNode, start: Bindings) returns (b: Bindings, changed: bool)
    ensures b == Turned(node, start)
    ensures changed <==> b != start
  {
    b, changed := start, false;
    var chains := AliasChains(node.value, start);
    if chains == {} { return; }
    var k := 0;
    while k < |node.targets|
      invariant 0 <= k <= |node.targets|
      invariant b == BoundTo(node.targets[..k], chains, start) && Within(start, b)
      invariant changed <==> b != start
    {
      var target := node.targets[k];
      var known := if target in b then b[target] else {};
      var next := Extended(b, target, chains);
      BoundToNext(node.targets, k, chains, start);
      ExtensionChanges(start, b, target, chains);
      changed := changed || |next[target]| != |known|;
      b, k := next, k + 1;
    }
    assert node.targets[..k] == node.targets;
  }

  /** The map after one assignment's turn. */
  function Turned(node: AliasNode, b: Bindings): Bindings {
    if AliasChains(node.value, b) == {} then b else BoundTo(node.targets, AliasChains(node.value, b), b)
  }

  /** The map after one pass over the assignments. */
  function OnePass(nodes: seq<AliasNode>, b: Bindings): Bindings {
    if nodes == [] then b else Turned(nodes[|nodes| - 1], OnePass(nodes[..|nodes| - 1], b))
  }

  function Passes(nodes: seq<AliasNode>, seed: Bindings, k: nat): Bindings {
    if k == 0 then seed else OnePass(nodes, Passes(nodes, seed, k - 1))
  }

  /** What the loop returns: a map some number of passes reach and a further pass leaves alone. */
  ghost predicate LoopResult(seed: Bindings, nodes: seq<AliasNode>, b: Bindings) {
    OnePass(nodes, b) == b && exists k :: Passes(nodes, seed, k) == b
  }

  /** What one assignment's turn does to the loop's state. */
  lemma TurnKeepsState(seed: Bindings, nodes: seq<AliasNode>, node: AliasNode, start: Bindings, b: Bindings)
    requires WellSeeded(seed) && node in nodes && LoopState(seed, nodes, start)
    requires b == Turned(node, start)
    ensures LoopState(seed, nodes, b)
    ensures if b == start then Closed([node], b) else Pairs(start) < Pairs(b)
  {
    var chains := AliasChains(node.value, start);
    if chains != {} {
      assert node.targets[..|node.targets|] == node.targets;
      BoundToKeepsState(seed, nodes, node, |node.targets|, start);
      BoundToGrows(node.targets, chains, start);
      if b != start {
        NewNamesHoldChains(node.targets, chains, start);
        ChangedGrowsPairs(start, b);
      }
    }
  }

  lemma {:induction false} NewNamesHoldChains(targets: seq<string>, chains: set<Chain>, b: Bindings)
    requires chains != {}
    ensures forall n | n in BoundTo(targets, chains, b) && n !in b :: BoundTo(targets, chains, b)[n] != {}
  {
    if targets != [] {
      NewNamesHoldChains(targets[..|targets| - 1], chains, b);
    }
  }

  lemma AssignmentDerivesAll(seed: Bindings, nodes: seq<AliasNode>, b: Bindings, node: AliasNode, t: string)
    requires WellSeeded(seed) && LoopState(seed, nodes, b) && node in nodes && t in node.targets
    ensures forall c | c in AliasChains(node.value, b) :: Derived(seed, nodes, t, c)
  {
    forall c | c in AliasChains(node.value, b)
      ensures Derived(seed, nodes, t, c)
    {
      AssignmentDerives(seed, nodes, b, node, t, c);
    }
  }

  lemma SameSize<T>(a: set<T>, b: set<T>)
    requires a <= b && |a| == |b|
    ensures a == b
  {
    assert b == a + (b - a);
  }

  lemma ClosedGrows(nodes: seq<AliasNode>, i: nat, b: Bindings)
    requires i < |nodes| && Closed(nodes[..i], b) && Closed([nodes[i]], b)
    ensures Closed(nodes[..i + 1], b)
  {
    forall node, t | node in nodes[..i + 1] && t in node.targets && AliasChains(node.value, b) != {}
      ensures t in b && AliasChains(node.value, b) <= b[t]
    {
      assert node in nodes[..i] || node in [nodes[i]];
    }
  }

  /** One pass over the assignments. */
  method BindingPass(seed: Bindings, nodes: seq<AliasNode>, start: Bindings) returns (b: Bindings, changed: bool)
    requires WellSeeded(seed) && LoopState(seed, nodes, start)
    ensures b == OnePass(nodes, start)
    ensures LoopState(seed, nodes, b)
    ensures !changed ==> b == start && Closed(nodes, b)
    ensures changed ==> Pairs(start) < Pairs(b)
  {
    b, changed := start, false;
    for i := 0 to |nodes|
      invariant b == OnePass(nodes[..i], start)
      invariant LoopState(seed, nodes, b) && Pairs(start) <= Pairs(b)
      invariant !changed ==> b == start && Closed(nodes[..i], b)
      invariant changed ==> Pairs(start) < Pairs(b)
    {
      var before := b;
      var one: bool;
      b, one := BindTargets(nodes[i], before);
      assert nodes[..i + 1][..i] == nodes[..i];
      TurnKeepsState(seed, nodes, nodes[i], before, b);
      changed := changed || one;
      if !changed {
        ClosedGrows(nodes, i, b);
      }
    }
    assert nodes[..|nodes|] == nodes;
  }

  /** The `while changed` loop over the assignments, in whatever order the walk gives them. */
  method ArtifactBindings(seed: Bindings, nodes: seq<AliasNode>) returns (b: Bindings)
    requires WellSeeded(seed) && !LiveLengtheningCycle(seed, nodes)
    ensures LoopResult(seed, nodes, b)
    ensures LoopState(seed, nodes, b) && Closed(nodes, b)
    ensures forall m | Admissible(seed, nodes, m) :: Within(b, m)
    ensures RootsUntouched(seed, nodes) ==> Admissible(seed, nodes, b)
  {
    ghost var bound := AdmissibleBound(seed, nodes);
    AdmissibleBoundExists(seed, nodes);
    b := seed;
    var changed := true;
    ghost var k := 0;
    while changed
      invariant LoopState(seed, nodes, b) && b == Passes(nodes, seed, k)
      invariant !changed ==> Closed(nodes, b) && OnePass(nodes, b) == b
      decreases |Pairs(bound) - Pairs(b)|, changed
    {
      ghost var start := b;
      b, changed := BindingPass(seed, nodes, b);
      k := k + 1;
      if changed {
        MeasureFalls(seed, nodes, bound, start, b);
      }
    }
    forall m | Admissible(seed, nodes, m)
      ensures Within(b, m)
    {
      StateBelow(seed, nodes, b, m);
    }
  }

  lemma MeasureFalls(seed: Bindings, nodes: seq<AliasNode>, bound: Bindings, start: Bindings, b: Bindings)
    requires Admissible(seed, nodes, bound) && LoopState(seed, nodes, b) && Pairs(start) < Pairs(b)
    ensures |Pairs(bound) - Pairs(b)| < |Pairs(bound) - Pairs(start)|
  {
    StateBelow(seed, nodes, b, bound);
    PairsWithin(b, bound);
    var pair :| pair in Pairs(b) && pair !in Pairs(start);
    assert pair in Pairs(bound) - Pairs(start) && pair !in Pairs(bound) - Pairs(b);
    SmallerSet(Pairs(bound) - Pairs(b), Pairs(bound) - Pairs(start));
  }

  /** With the tracked roots left alone, the loop's result is exactly the reference definition. */
  lemma ResultIsDerived(seed: Bindings, nodes: seq<AliasNode>, b: Bindings, name: string, c: Chain)
    requires LoopState(seed, nodes, b) && Closed(nodes, b) && RootsUntouched(seed, nodes)
    ensures (name in b && c in b[name]) <==> Explained(seed, nodes, name, c)
  {
    if Derived(seed, nodes, name, c) {
      assert RootsKept(seed, b);
      DerivedInEvery(seed, nodes, b, name, c);
    }
  }

  // ---- a live lengthening cycle never closes --------------------------------------------------

  lemma {:induction false} LongestTracked(cs: set<Chain>, some: Chain) returns (longest: Chain)
    requires some in cs && Tracked(some)
    ensures longest in cs && Tracked(longest)
    ensures forall c | c in cs && Tracked(c) :: |c| <= |longest|
    decreases |cs|
  {
    if c :| c in cs && Tracked(c) && |c| > |some| {
      var rest := cs - {some};
      assert cs == rest + {some};
      longest := LongestTracked(rest, c);
    } else {
      longest := some;
    }
  }

  lemma DerivedTracked(seed: Bindings, nodes: seq<AliasNode>, name: string, c: Chain)
    requires Derived(seed, nodes, name, c)
    ensures Tracked(c)
  {
    var from, p, legs :| Carries(seed, nodes, from, p, legs, name, c);
    assert c[0] == p[0];
  }

  lemma SeededHolds(seed: Bindings, nodes: seq<AliasNode>, b: Bindings, name: string) returns (c: Chain)
    requires Within(seed, b) && Seeded(seed, name) && (LoopState(seed, nodes, b) || RootsKept(seed, b))
    ensures c in Held(b, name) && Tracked(c)
  {
    if name in seed {
      c :| c in seed[name] && Tracked(c);
    } else if name !in b {
      c := [name];
    } else if RootsKept(seed, b) {
      c := [name];
    } else {
      c :| c in b[name];
      DerivedTracked(seed, nodes, name, c);
    }
  }

  /** With a live lengthening cycle no state of the loop and no admissible map is closed: the loop
      runs for ever. */
  lemma LengtheningCycleNeverCloses(seed: Bindings, nodes: seq<AliasNode>, b: Bindings)
    requires LiveLengtheningCycle(seed, nodes)
    requires Within(seed, b) && (LoopState(seed, nodes, b) || RootsKept(seed, b))
    ensures !Closed(nodes, b)
  {
    if Closed(nodes, b) {
      var name, cycle :| Live(seed, nodes, name) && LengtheningCycle(nodes, name, cycle);
      var from, legs :| Seeded(seed, from) && Walk(nodes, from, legs, name);
      var c := SeededHolds(seed, nodes, b, from);
      ChainsTravel(nodes, b, from, c, legs, name);
      var longest := LongestTracked(Held(b, name), c + Gained(nodes, legs));
      ChainsTravel(nodes, b, name, longest, cycle, name);
      assert Tracked(longest + Gained(nodes, cycle));
      assert false;
    }
  }

  // ---- without one, a finite bound exists ------------------------------------------------------

  /** Node `i` copies into a name from which `name` can be reached. */
  ghost predicate Upstream(seed: Bindings, nodes: seq<AliasNode>, i: nat, name: string) {
    && i < |nodes|
    && PathOf(nodes[i].value).Some?
    && Live(seed, nodes, PathOf(nodes[i].value).value.name)
    && exists t, legs :: t in nodes[i].targets && Walk(nodes, t, legs, name)
  }

  /** The attributes of the first `k` nodes that lie upstream of `name`. */
  ghost function Potential(seed: Bindings, nodes: seq<AliasNode>, k: nat, name: string): nat {
    if k == 0 then 0
    else Potential(seed, nodes, k - 1, name)
         + (if Upstream(seed, nodes, k - 1, name) then |AttrsAt(nodes, k - 1)| else 0)
  }

  lemma UpstreamHop(seed: Bindings, nodes: seq<AliasNode>, j: nat, from: string, i: nat, to: string)
    requires Hop(nodes, from, i, to) && Upstream(seed, nodes, j, from)
    ensures Upstream(seed, nodes, j, to)
  {
    var t, legs :| t in nodes[j].targets && Walk(nodes, t, legs, from);
    WalkExtends(nodes, t, legs, from, Leg(i, to));
  }

  lemma LengtheningNodeIsNotUpstream(seed: Bindings, nodes: seq<AliasNode>, from: string, i: nat, to: string)
    requires !LiveLengtheningCycle(seed, nodes)
    requires Live(seed, nodes, from) && Hop(nodes, from, i, to) && AttrsAt(nodes, i) != []
    ensures !Upstream(seed, nodes, i, from)
  {
    if Upstream(seed, nodes, i, from) {
      var t, legs :| t in nodes[i].targets && Walk(nodes, t, legs, from);
      var cycle := [Leg(i, t)] + legs;
      assert cycle[1..] == legs;
      assert LengtheningCycle(nodes, from, cycle);
      assert false;
    }
  }

  lemma {:induction false} PotentialRises(seed: Bindings, nodes: seq<AliasNode>, k: nat, from: string, i: nat,
                                          to: string)
    requires !LiveLengtheningCycle(seed, nodes)
    requires Live(seed, nodes, from) && Hop(nodes, from, i, to)
    ensures Potential(seed, nodes, k, to)
            >= Potential(seed, nodes, k, from) + (if i < k then |AttrsAt(nodes, i)| else 0)
  {
    if k > 0 {
      PotentialRises(seed, nodes, k - 1, from, i, to);
      if Upstream(seed, nodes, k - 1, from) {
        UpstreamHop(seed, nodes, k - 1, from, i, to);
      }
      if i == k - 1 {
        assert Walk(nodes, to, [], to);
        assert Upstream(seed, nodes, i, to);
        if AttrsAt(nodes, i) != [] {
          LengtheningNodeIsNotUpstream(seed, nodes, from, i, to);
        }
      }
    }
  }

  ghost function ChainsUpTo(letters: set<string>, length: nat): set<Chain> {
    if length == 0 then {[]}
    else
      var shorter := ChainsUpTo(letters, length - 1);
      shorter + set c, a | c in shorter && a in letters :: c + [a]
  }

  lemma {:induction false} ChainsUpToContains(letters: set<string>, length: nat, c: Chain)
    requires |c| <= length && forall a | a in c :: a in letters
    ensures c in ChainsUpTo(letters, length)
  {
    if length > 0 && c != [] {
      var init, last := c[..|c| - 1], c[|c| - 1];
      ChainsUpToContains(letters, length - 1, init);
      assert c == init + [last] && last in c;
    } else if length > 0 {
      ChainsUpToContains(letters, length - 1, c);
    }
  }

  lemma {:induction false} ChainsUpToOnly(letters: set<string>, length: nat, c: Chain)
    requires c in ChainsUpTo(letters, length)
    ensures |c| <= length && forall a | a in c :: a in letters
  {
    if length > 0 && c !in ChainsUpTo(letters, length - 1) {
      var init, a :| init in ChainsUpTo(letters, length - 1) && a in letters && c == init + [a];
      ChainsUpToOnly(letters, length - 1, init);
    } else if length > 0 {
      ChainsUpToOnly(letters, length - 1, c);
    }
  }

  ghost function SeedChains(seed: Bindings): set<Chain> {
    set n, c | n in seed && c in seed[n] :: c
  }

  ghost function LongestLength(cs: set<Chain>): (n: nat)
    ensures n >= 1
    ensures forall c | c in cs :: |c| <= n
  {
    if cs == {} then 1
    else
      var c :| c in cs;
      var rest := LongestLength(cs - {c});
      if |c| > rest then |c| else rest
  }

  ghost function Letters(seed: Bindings, nodes: seq<AliasNode>): set<string> {
    (set c, a | c in SeedChains(seed) && a in c :: a)
    + {"bpy", "json"}
    + (set i, a | 0 <= i < |nodes| && a in AttrsAt(nodes, i) :: a)
  }

  ghost function LengthLimit(seed: Bindings, nodes: seq<AliasNode>, name: string): nat {
    LongestLength(SeedChains(seed)) + Potential(seed, nodes, |nodes|, name)
  }

  ghost predicate Fits(seed: Bindings, nodes: seq<AliasNode>, name: string, c: Chain) {
    c != [] && |c| <= LengthLimit(seed, nodes, name) && forall a | a in c :: a in Letters(seed, nodes)
  }

  ghost function FittingChains(seed: Bindings, nodes: seq<AliasNode>, name: string): (cs: set<Chain>)
    ensures forall c :: c in cs <==> Fits(seed, nodes, name, c)
  {
    var letters, limit := Letters(seed, nodes), LengthLimit(seed, nodes, name);
    var cs := ChainsUpTo(letters, limit) - {[]};
    assert forall c :: c in cs <==> Fits(seed, nodes, name, c) by {
      forall c
        ensures c in cs <==> Fits(seed, nodes, name, c)
      {
        if c in cs { ChainsUpToOnly(letters, limit, c); }
        if Fits(seed, nodes, name, c) { ChainsUpToContains(letters, limit, c); }
      }
    }
    cs
  }

  /** A finite map above every state of the loop when no live cycle lengthens a chain. */
  ghost function AdmissibleBound(seed: Bindings, nodes: seq<AliasNode>): Bindings {
    map n | n in seed.Keys + AllTargets(nodes) && (n in seed || Live(seed, nodes, n)) ::
      if Live(seed, nodes, n) then FittingChains(seed, nodes, n) else seed[n]
  }

  lemma SeedFits(seed: Bindings, nodes: seq<AliasNode>, from: string, p: Chain, name: string)
    requires Start(seed, from, p)
    ensures Fits(seed, nodes, name, p)
  {
    if from in seed {
      assert p in SeedChains(seed);
    }
  }

  lemma BoundHoldsLive(seed: Bindings, nodes: seq<AliasNode>, name: string, c: Chain)
    requires c in Held(AdmissibleBound(seed, nodes), name) && Tracked(c)
    ensures Live(seed, nodes, name) && Fits(seed, nodes, name, c)
  {
    var bound := AdmissibleBound(seed, nodes);
    if !(name in bound && Live(seed, nodes, name)) {
      assert Seeded(seed, name);
      assert Walk(nodes, name, [], name);
      assert Start(seed, name, c);
      SeedFits(seed, nodes, name, c, name);
    }
  }

  lemma BoundIsClosed(seed: Bindings, nodes: seq<AliasNode>, node: AliasNode, t: string, c: Chain)
    requires WellSeeded(seed) && !LiveLengtheningCycle(seed, nodes)
    requires node in nodes && t in node.targets && c in AliasChains(node.value, AdmissibleBound(seed, nodes))
    ensures t in AdmissibleBound(seed, nodes) && c in AdmissibleBound(seed, nodes)[t]
  {
    var bound := AdmissibleBound(seed, nodes);
    var i :| 0 <= i < |nodes| && nodes[i] == node;
    var p := ResolvedSplits(node.value, bound, c);
    var path := PathOf(node.value).value;
    assert p != [] by {
      BoundChainsNonempty(seed, nodes, path.name);
    }
    assert p[0] == c[0];
    BoundHoldsLive(seed, nodes, path.name, p);
    assert Hop(nodes, path.name, i, t);
    LiveHop(seed, nodes, path.name, i, t);
    PotentialRises(seed, nodes, |nodes|, path.name, i, t);
    assert t in AllTargets(nodes);
    assert Fits(seed, nodes, t, c) by {
      assert AttrsAt(nodes, i) == path.attrs;
    }
  }

  lemma BoundChainsNonempty(seed: Bindings, nodes: seq<AliasNode>, name: string)
    requires WellSeeded(seed)
    ensures [] !in Held(AdmissibleBound(seed, nodes), name)
  {
    var none: Chain := [];
    assert !Fits(seed, nodes, name, none);
  }

  lemma SeedWithinBound(seed: Bindings, nodes: seq<AliasNode>)
    requires WellSeeded(seed)
    ensures Within(seed, AdmissibleBound(seed, nodes))
  {
    forall n, c | n in seed && c in seed[n]
      ensures Fits(seed, nodes, n, c)
    {
      assert c in SeedChains(seed);
    }
  }

  lemma BoundKeepsRoots(seed: Bindings, nodes: seq<AliasNode>)
    ensures RootsKept(seed, AdmissibleBound(seed, nodes))
  {
    forall r | TrackedRoot(r) && r !in seed
      ensures Fits(seed, nodes, r, [r])
    {
      SeedFits(seed, nodes, r, [r], r);
    }
  }

  lemma AdmissibleBoundExists(seed: Bindings, nodes: seq<AliasNode>)
    requires WellSeeded(seed) && !LiveLengtheningCycle(seed, nodes)
    ensures Admissible(seed, nodes, AdmissibleBound(seed, nodes))
  {
    var bound := AdmissibleBound(seed, nodes);
    SeedWithinBound(seed, nodes);
    BoundKeepsRoots(seed, nodes);
    forall node, t | node in nodes && t in node.targets && AliasChains(node.value, bound) != {}
      ensures t in bound && AliasChains(node.value, bound) <= bound[t]
    {
      forall c | c in AliasChains(node.value, bound)
        ensures t in bound && c in bound[t]
      {
        BoundIsClosed(seed, nodes, node, t, c);
      }
      var c :| c in AliasChains(node.value, bound);
    }
  }

  /** A finite map closed under the assignments and keeping the roots exists exactly when no live
      cycle lengthens a chain. */
  lemma ClosedMapExistsIff(seed: Bindings, nodes: seq<AliasNode>)
    requires WellSeeded(seed)
    ensures (exists m :: Admissible(seed, nodes, m)) <==> !LiveLengtheningCycle(seed, nodes)
  {
    if LiveLengtheningCycle(seed, nodes) {
      forall m
        ensures !Admissible(seed, nodes, m)
      {
        if Admissible(seed, nodes, m) {
          LengtheningCycleNeverCloses(seed, nodes, m);
        }
      }
    } else {
      AdmissibleBoundExists(seed, nodes);
    }
  }

  /** Without `RootsKept` there is no least closed map: `x = bpy; bpy = json` without an import
      of `bpy` resolves `bpy` differently before and after its rebinding. */
  lemma RebindingARootLosesItsDefault()
    ensures var seed: Bindings := map["json" := {["json"]}];
            var nodes := [AliasNode(["x"], Name("bpy")), AliasNode(["bpy"], Name("json"))];
            var early: Bindings := seed["x" := {["bpy"], ["json"]}]["bpy" := {["json"]}];
            var late: Bindings := seed["x" := {["json"]}]["bpy" := {["json"]}];
            && !LiveLengtheningCycle(seed, nodes)
            && Within(seed, early) && Closed(nodes, early)
            && Within(seed, late) && Closed(nodes, late) && !Within(early, late)
  {
    var seed: Bindings := map["json" := {["json"]}];
    var nodes := [AliasNode(["x"], Name("bpy")), AliasNode(["bpy"], Name("json"))];
    var early: Bindings := seed["x" := {["bpy"], ["json"]}]["bpy" := {["json"]}];
    var late: Bindings := seed["x" := {["json"]}]["bpy" := {["json"]}];
    assert ["bpy"] in early["x"] && ["bpy"] != ["json"] by { assert ["bpy"][0] != ["json"][0]; }
    assert AliasChains(nodes[0].value, early) == {["json"]};
    if LiveLengtheningCycle(seed, nodes) {
      var name, legs :| Live(seed, nodes, name) && LengtheningCycle(nodes, name, legs);
      PlainCopiesGainNothing(nodes, legs);
    }
  }

  lemma {:induction false} PlainCopiesGainNothing(nodes: seq<AliasNode>, legs: seq<Leg>)
    requires forall node | node in nodes :: node.value.Name?
    ensures Gained(nodes, legs) == []
  {
    if legs != [] {
      PlainCopiesGainNothing(nodes, legs[1..]);
    }
  }
}
