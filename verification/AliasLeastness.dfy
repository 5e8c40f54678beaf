/**
  What the alias loop's result is least among, and when it keeps the roots.

  Two exact conditions on a result of the loop.  It lies below every closed map above the imports exactly when nothing
  in it is carried from an unimported root, and it keeps the default chain of the unimported roots exactly when each of
  them that is rebound also got its own chain.  Which names it binds depends on the imports and assignments alone.
 */
module AliasLeastness {
  import opened Common
  import opened ArtifactLanguage
  import opened AliasBindings

  // ---- every result is a closed state of the loop ------------------------------------------------

  lemma {:induction false} OnePassKeepsState(seed: Bindings, nodes: seq<AliasNode>, k: nat, start: Bindings)
    requires WellSeeded(seed) && k <= |nodes| && LoopState(seed, nodes, start)
    ensures LoopState(seed, nodes, OnePass(nodes[..k], start))
    ensures Pairs(start) <= Pairs(OnePass(nodes[..k], start))
    ensures if OnePass(nodes[..k], start) == start then Closed(nodes[..k], start)
            else Pairs(start) < Pairs(OnePass(nodes[..k], start))
  {
    if k > 0 {
      OnePassKeepsState(seed, nodes, k - 1, start);
      assert nodes[..k][..k - 1] == nodes[..k - 1];
      var mid := OnePass(nodes[..k - 1], start);
      TurnKeepsState(seed, nodes, nodes[k - 1], mid, Turned(nodes[k - 1], mid));
      if OnePass(nodes[..k], start) == start { ClosedGrows(nodes, k - 1, start); }
    }
  }

  lemma PassKeepsState(seed: Bindings, nodes: seq<AliasNode>, start: Bindings)
    requires WellSeeded(seed) && LoopState(seed, nodes, start)
    ensures LoopState(seed, nodes, OnePass(nodes, start))
    ensures if OnePass(nodes, start) == start then Closed(nodes, start) else Pairs(start) < Pairs(OnePass(nodes, start))
  {
    OnePassKeepsState(seed, nodes, |nodes|, start);
    assert nodes[..|nodes|] == nodes;
  }

  lemma {:induction false} PassesKeepState(seed: Bindings, nodes: seq<AliasNode>, k: nat)
    requires WellSeeded(seed)
    ensures LoopState(seed, nodes, Passes(nodes, seed, k))
  {
    if k > 0 {
      PassesKeepState(seed, nodes, k - 1);
      PassKeepsState(seed, nodes, Passes(nodes, seed, k - 1));
    }
  }

  lemma ResultIsClosedState(seed: Bindings, nodes: seq<AliasNode>, b: Bindings)
    requires WellSeeded(seed) && LoopResult(seed, nodes, b)
    ensures LoopState(seed, nodes, b) && Closed(nodes, b)
  {
    var k :| Passes(nodes, seed, k) == b;
    PassesKeepState(seed, nodes, k);
    PassKeepsState(seed, nodes, b);
  }

  /** How many pairs the loop may still add after `k` passes. */
  ghost function Missing(seed: Bindings, nodes: seq<AliasNode>, b: Bindings): nat {
    |Pairs(AdmissibleBound(seed, nodes)) - Pairs(b)|
  }

  lemma PassMissesFewer(seed: Bindings, nodes: seq<AliasNode>, b: Bindings)
    requires WellSeeded(seed) && !LiveLengtheningCycle(seed, nodes)
    requires LoopState(seed, nodes, b) && OnePass(nodes, b) != b
    ensures Missing(seed, nodes, OnePass(nodes, b)) < Missing(seed, nodes, b)
  {
    PassKeepsState(seed, nodes, b);
    AdmissibleBoundExists(seed, nodes);
    MeasureFalls(seed, nodes, AdmissibleBound(seed, nodes), b, OnePass(nodes, b));
  }

  lemma NextMissesFewer(seed: Bindings, nodes: seq<AliasNode>, k: nat)
    requires WellSeeded(seed) && !LiveLengtheningCycle(seed, nodes)
    requires OnePass(nodes, Passes(nodes, seed, k)) != Passes(nodes, seed, k)
    ensures Missing(seed, nodes, Passes(nodes, seed, k + 1)) < Missing(seed, nodes, Passes(nodes, seed, k))
  {
    PassesKeepState(seed, nodes, k);
    PassMissesFewer(seed, nodes, Passes(nodes, seed, k));
  }

  lemma {:induction false} SettlesFrom(seed: Bindings, nodes: seq<AliasNode>, k: nat, left: nat) returns (n: nat)
    requires WellSeeded(seed) && !LiveLengtheningCycle(seed, nodes)
    requires Missing(seed, nodes, Passes(nodes, seed, k)) <= left
    ensures OnePass(nodes, Passes(nodes, seed, n)) == Passes(nodes, seed, n)
    decreases left
  {
    n := k;
    if OnePass(nodes, Passes(nodes, seed, k)) != Passes(nodes, seed, k) {
      NextMissesFewer(seed, nodes, k);
      n := SettlesFrom(seed, nodes, k + 1, left - 1);
    }
  }

  /** Without a live lengthening cycle the loop has a result. */
  lemma ResultExists(seed: Bindings, nodes: seq<AliasNode>) returns (b: Bindings)
    requires WellSeeded(seed) && !LiveLengtheningCycle(seed, nodes)
    ensures LoopResult(seed, nodes, b)
  {
    var n := SettlesFrom(seed, nodes, 0, Missing(seed, nodes, Passes(nodes, seed, 0)));
    b := Passes(nodes, seed, n);
  }

  // ---- which names the result binds -------------------------------------------------------------

  /** An assignment binds `name` to what a live name holds. */
  ghost predicate Rebound(seed: Bindings, nodes: seq<AliasNode>, name: string) {
    exists from: string, i: nat :: Live(seed, nodes, from) && Hop(nodes, from, i, name)
  }

  lemma {:induction false} LastHop(nodes: seq<AliasNode>, from: string, legs: seq<Leg>, to: string)
    returns (mid: string)
    requires Walk(nodes, from, legs, to) && legs != []
    ensures Walk(nodes, from, legs[..|legs| - 1], mid) && Hop(nodes, mid, legs[|legs| - 1].node, to)
    decreases |legs|
  {
    if |legs| == 1 {
      mid := from;
      assert legs[..0] == [] && legs[1..] == [];
    } else {
      mid := LastHop(nodes, legs[0].to, legs[1..], to);
      assert legs[1..][..|legs[1..]| - 1] == legs[..|legs| - 1][1..];
    }
  }

  /** A live name holds a tracked chain in the result. */
  lemma LiveHolds(seed: Bindings, nodes: seq<AliasNode>, b: Bindings, name: string) returns (c: Chain)
    requires LoopState(seed, nodes, b) && Closed(nodes, b) && Live(seed, nodes, name)
    ensures c in Held(b, name) && Tracked(c)
  {
    var from, legs :| Seeded(seed, from) && Walk(nodes, from, legs, name);
    var p := SeededHolds(seed, nodes, b, from);
    ChainsTravel(nodes, b, from, p, legs, name);
    c := p + Gained(nodes, legs);
    assert c[0] == p[0];
  }

  lemma BoundIsRebound(seed: Bindings, nodes: seq<AliasNode>, b: Bindings, name: string)
    requires LoopState(seed, nodes, b) && name in b && name !in seed
    ensures Rebound(seed, nodes, name)
  {
    var c :| c in b[name];
    var from, p, legs :| Carries(seed, nodes, from, p, legs, name, c) && (name in seed || legs != []);
    var mid := LastHop(nodes, from, legs, name);
    assert Seeded(seed, from);
    assert Live(seed, nodes, mid);
  }

  /** The result binds exactly the imported names and the rebound ones, in whatever order it was found. */
  lemma BoundNamesIff(seed: Bindings, nodes: seq<AliasNode>, b: Bindings, name: string)
    requires LoopState(seed, nodes, b) && Closed(nodes, b)
    ensures name in b <==> name in seed || Rebound(seed, nodes, name)
  {
    if Rebound(seed, nodes, name) {
      var from: string, i: nat :| Live(seed, nodes, from) && Hop(nodes, from, i, name);
      var c := LiveHolds(seed, nodes, b, from);
      HopTravels(nodes, b, from, c, i, name);
    } else if name in b && name !in seed {
      BoundIsRebound(seed, nodes, b, name);
    }
  }

  // ---- leastness among all closed maps ---------------------------------------------------------

  /** An import, or assignments starting from one, give `name` the chain. */
  ghost predicate ByImports(seed: Bindings, nodes: seq<AliasNode>, name: string, c: Chain) {
    || (name in seed && c in seed[name])
    || (exists from, p, legs :: from in seed && Carries(seed, nodes, from, p, legs, name, c))
  }

  lemma ImportsTravel(seed: Bindings, nodes: seq<AliasNode>, m: Bindings, name: string, c: Chain)
    requires Within(seed, m) && Closed(nodes, m) && ByImports(seed, nodes, name, c)
    ensures name in m && c in m[name]
  {
    if !(name in seed && c in seed[name]) {
      var from, p, legs :| from in seed && Carries(seed, nodes, from, p, legs, name, c);
      ChainsTravel(nodes, m, from, p, legs, name);
    }
  }

  /** What imports alone explain of a map; an unimported root holds nothing else. */
  ghost function ImportedPart(seed: Bindings, nodes: seq<AliasNode>, b: Bindings): Bindings {
    map n | n in b.Keys + {"bpy", "json"} ::
      set c | c in (if n in b then b[n] else {}) && ByImports(seed, nodes, n, c)
  }

  lemma ByImportsAcross(seed: Bindings, nodes: seq<AliasNode>, name: string, q: Chain, i: nat, t: string)
    requires ByImports(seed, nodes, name, q) && Tracked(q) && Hop(nodes, name, i, t)
    ensures ByImports(seed, nodes, t, q + AttrsAt(nodes, i))
  {
    if name in seed && q in seed[name] {
      assert q + Gained(nodes, []) == q;
      assert Carries(seed, nodes, name, q, [], name, q);
      CarriedAcross(seed, nodes, name, q, [], name, q, i, t);
    } else {
      var from, p, legs :| from in seed && Carries(seed, nodes, from, p, legs, name, q);
      CarriedAcross(seed, nodes, from, p, legs, name, q, i, t);
    }
  }

  lemma ImportedChain(seed: Bindings, nodes: seq<AliasNode>, name: string, q: Chain)
    requires WellSeeded(seed) && ByImports(seed, nodes, name, q)
    ensures q != []
  {
  }

  lemma ImportedPartTakes(seed: Bindings, nodes: seq<AliasNode>, b: Bindings, node: AliasNode, t: string, c: Chain)
    requires WellSeeded(seed) && LoopState(seed, nodes, b) && Closed(nodes, b)
    requires node in nodes && t in node.targets && c in AliasChains(node.value, ImportedPart(seed, nodes, b))
    ensures t in ImportedPart(seed, nodes, b) && c in ImportedPart(seed, nodes, b)[t]
  {
    var m := ImportedPart(seed, nodes, b);
    var i :| 0 <= i < |nodes| && nodes[i] == node;
    var q := ResolvedSplits(node.value, m, c);
    var name := PathOf(node.value).value.name;
    assert name in m;
    ImportedChain(seed, nodes, name, q);
    assert q[0] == c[0];
    ByImportsAcross(seed, nodes, name, q, i, t);
    ImportsTravel(seed, nodes, b, t, c);
  }

  lemma ImportedPartIsClosed(seed: Bindings, nodes: seq<AliasNode>, b: Bindings)
    requires WellSeeded(seed) && LoopState(seed, nodes, b) && Closed(nodes, b)
    ensures Within(seed, ImportedPart(seed, nodes, b)) && Closed(nodes, ImportedPart(seed, nodes, b))
  {
    var m := ImportedPart(seed, nodes, b);
    forall node, t | node in nodes && t in node.targets && AliasChains(node.value, m) != {}
      ensures t in m && AliasChains(node.value, m) <= m[t]
    {
      forall c | c in AliasChains(node.value, m)
        ensures t in m && c in m[t]
      {
        ImportedPartTakes(seed, nodes, b, node, t, c);
      }
      var c :| c in AliasChains(node.value, m);
    }
  }

  ghost predicate Least(seed: Bindings, nodes: seq<AliasNode>, b: Bindings) {
    forall m | Within(seed, m) && Closed(nodes, m) :: Within(b, m)
  }

  ghost predicate ImportsExplain(seed: Bindings, nodes: seq<AliasNode>, b: Bindings) {
    forall n, c | n in b && c in b[n] :: ByImports(seed, nodes, n, c)
  }

  /** The result lies below every closed map above the imports exactly when nothing in it is carried from
      an unimported root. */
  lemma ResultIsLeastIff(seed: Bindings, nodes: seq<AliasNode>, b: Bindings)
    requires WellSeeded(seed) && LoopState(seed, nodes, b) && Closed(nodes, b)
    ensures Least(seed, nodes, b) <==> ImportsExplain(seed, nodes, b)
  {
    if ImportsExplain(seed, nodes, b) {
      forall m | Within(seed, m) && Closed(nodes, m)
        ensures Within(b, m)
      {
        forall n | n in b
          ensures n in m && b[n] <= m[n]
        {
          forall c | c in b[n]
            ensures n in m && c in m[n]
          {
            ImportsTravel(seed, nodes, m, n, c);
          }
          if n !in seed { var c :| c in b[n]; }
        }
      }
    }
    if Least(seed, nodes, b) {
      ImportedPartIsClosed(seed, nodes, b);
      assert Within(b, ImportedPart(seed, nodes, b));
    }
  }

  // ---- results that keep the roots -----------------------------------------------------------------

  ghost predicate UnimportedRoot(seed: Bindings, r: string) {
    TrackedRoot(r) && r !in seed
  }

  /** The result is a closed map that keeps the roots exactly when every rebound unimported root also got its
      own chain. */
  lemma ResultIsAdmissibleIff(seed: Bindings, nodes: seq<AliasNode>, b: Bindings)
    requires LoopState(seed, nodes, b) && Closed(nodes, b)
    ensures Admissible(seed, nodes, b)
            <==> forall r | UnimportedRoot(seed, r) && Rebound(seed, nodes, r) :: r in b && [r] in b[r]
  {
    forall r | UnimportedRoot(seed, r)
      ensures r in b <==> Rebound(seed, nodes, r)
    {
      BoundNamesIff(seed, nodes, b, r);
    }
  }

  /** Only the root itself can be carried to it. */
  ghost predicate OnlyFromItself(seed: Bindings, nodes: seq<AliasNode>, r: string) {
    forall from, legs | Seeded(seed, from) && Walk(nodes, from, legs, r) :: from == r
  }

  ghost predicate RootSafe(seed: Bindings, nodes: seq<AliasNode>, r: string) {
    !Rebound(seed, nodes, r) || ByImports(seed, nodes, r, [r]) || OnlyFromItself(seed, nodes, r)
  }

  ghost predicate RootsSafe(seed: Bindings, nodes: seq<AliasNode>) {
    forall r | UnimportedRoot(seed, r) :: RootSafe(seed, nodes, r)
  }

  lemma ItsOwnCycle(seed: Bindings, nodes: seq<AliasNode>, r: string, c: Chain)
    requires UnimportedRoot(seed, r) && OnlyFromItself(seed, nodes, r) && !LiveLengtheningCycle(seed, nodes)
    requires Derived(seed, nodes, r, c)
    ensures c == [r]
  {
    var from, p, legs :| Carries(seed, nodes, from, p, legs, r, c) && (r in seed || legs != []);
    assert Seeded(seed, from) && from == r;
    assert Live(seed, nodes, r);
    assert !LengtheningCycle(nodes, r, legs);
  }

  lemma SafeRootIsKept(seed: Bindings, nodes: seq<AliasNode>, b: Bindings, r: string)
    requires LoopState(seed, nodes, b) && Closed(nodes, b) && !LiveLengtheningCycle(seed, nodes)
    requires UnimportedRoot(seed, r) && RootSafe(seed, nodes, r) && r in b
    ensures [r] in b[r]
  {
    if ByImports(seed, nodes, r, [r]) {
      ImportsTravel(seed, nodes, b, r, [r]);
    } else {
      BoundNamesIff(seed, nodes, b, r);
      var c :| c in b[r];
      ItsOwnCycle(seed, nodes, r, c);
    }
  }
}
