/**
  What the alias loop yields when the walk lists the same assignments in another order.

  Two questions are answered for every order at once, as conditions on the imports and the assignments: whether the
  result keeps the default chains of unimported roots, and whether it is least among the closed maps above the imports.
  An order that spoils the answer takes a walk of assignments first; a walk that meets an assignment twice is cut, so
  that every order lists each assignment exactly as often as the program.
 */
module AliasOrders {
  import opened Common
  import opened ArtifactLanguage
  import opened AliasBindings
  import opened AliasLeastness

  // ---- other orders of the same assignments --------------------------------------------------------

  /** The same assignments in another order. */
  ghost predicate Listing(nodes: seq<AliasNode>, listing: seq<AliasNode>) {
    multiset(listing) == multiset(nodes)
  }

  ghost predicate SameNodes(nodes: seq<AliasNode>, listing: seq<AliasNode>) {
    forall node :: node in nodes <==> node in listing
  }

  lemma ListingHasSameNodes(nodes: seq<AliasNode>, listing: seq<AliasNode>)
    requires Listing(nodes, listing)
    ensures SameNodes(nodes, listing) && SameNodes(listing, nodes)
  {
    forall node
      ensures node in nodes <==> node in listing
    {
      assert node in nodes <==> node in multiset(nodes);
      assert node in listing <==> node in multiset(listing);
    }
  }

  lemma {:induction false} WalkRelists(nodes: seq<AliasNode>, listing: seq<AliasNode>, from: string, legs: seq<Leg>,
                                       to: string)
    returns (legs': seq<Leg>)
    requires SameNodes(nodes, listing) && Walk(nodes, from, legs, to)
    ensures Walk(listing, from, legs', to) && Gained(listing, legs') == Gained(nodes, legs) && |legs'| == |legs|
    decreases |legs|
  {
    if legs == [] {
      legs' := [];
    } else {
      var rest := WalkRelists(nodes, listing, legs[0].to, legs[1..], to);
      assert nodes[legs[0].node] in nodes;
      var i: nat :| i < |listing| && listing[i] == nodes[legs[0].node];
      legs' := [Leg(i, legs[0].to)] + rest;
      assert legs'[1..] == rest;
    }
  }

  lemma LiveRelists(seed: Bindings, nodes: seq<AliasNode>, listing: seq<AliasNode>, name: string)
    requires SameNodes(nodes, listing) && Live(seed, nodes, name)
    ensures Live(seed, listing, name)
  {
    var from, legs :| Seeded(seed, from) && Walk(nodes, from, legs, name);
    var _ := WalkRelists(nodes, listing, from, legs, name);
  }

  lemma CycleRelists(seed: Bindings, nodes: seq<AliasNode>, listing: seq<AliasNode>)
    requires SameNodes(nodes, listing) && LiveLengtheningCycle(seed, nodes)
    ensures LiveLengtheningCycle(seed, listing)
  {
    var name, legs :| Live(seed, nodes, name) && LengtheningCycle(nodes, name, legs);
    LiveRelists(seed, nodes, listing, name);
    var legs' := WalkRelists(nodes, listing, name, legs, name);
    assert LengtheningCycle(listing, name, legs');
  }

  lemma ByImportsRelists(seed: Bindings, nodes: seq<AliasNode>, listing: seq<AliasNode>, name: string, c: Chain)
    requires SameNodes(nodes, listing) && ByImports(seed, nodes, name, c)
    ensures ByImports(seed, listing, name, c)
  {
    if !(name in seed && c in seed[name]) {
      var from, p, legs :| from in seed && Carries(seed, nodes, from, p, legs, name, c);
      var legs' := WalkRelists(nodes, listing, from, legs, name);
      assert Carries(seed, listing, from, p, legs', name, c);
    }
  }

  lemma SafeRelists(seed: Bindings, nodes: seq<AliasNode>, listing: seq<AliasNode>, r: string)
    requires SameNodes(nodes, listing) && RootSafe(seed, nodes, r)
    ensures RootSafe(seed, listing, r)
  {
    if Rebound(seed, listing, r) && !ByImports(seed, listing, r, [r]) {
      var from: string, i: nat :| Live(seed, listing, from) && Hop(listing, from, i, r);
      LiveRelists(seed, listing, nodes, from);
      assert listing[i] in listing;
      var j: nat :| j < |nodes| && nodes[j] == listing[i];
      assert Hop(nodes, from, j, r);
      if ByImports(seed, nodes, r, [r]) { ByImportsRelists(seed, nodes, listing, r, [r]); }
      forall from, legs | Seeded(seed, from) && Walk(listing, from, legs, r)
        ensures from == r
      {
        var _ := WalkRelists(listing, nodes, from, legs, r);
      }
    }
  }

  // ---- an order that loses a root -------------------------------------------------------------------

  /** Carried to `name` from anything but the default of `r`. */
  ghost predicate ByOthers(seed: Bindings, nodes: seq<AliasNode>, r: string, name: string, c: Chain) {
    || (name in seed && c in seed[name])
    || (exists from, p, legs :: from != r && Carries(seed, nodes, from, p, legs, name, c))
  }

  /** A map found without ever reading the default of `r`. */
  ghost predicate Unread(seed: Bindings, nodes: seq<AliasNode>, r: string, b: Bindings) {
    && Within(seed, b)
    && forall n, c {:trigger ByOthers(seed, nodes, r, n, c)} | n in b && c in b[n] :: ByOthers(seed, nodes, r, n, c)
  }

  lemma OthersCarried(seed: Bindings, nodes: seq<AliasNode>, r: string, b: Bindings, node: AliasNode, t: string,
                      c: Chain)
    requires WellSeeded(seed) && UnimportedRoot(seed, r) && Unread(seed, nodes, r, b)
    requires node in nodes && t in node.targets && c in AliasChains(node.value, b)
    requires r in b || (PathOf(node.value).Some? && PathOf(node.value).value.name != r)
    ensures ByOthers(seed, nodes, r, t, c)
  {
    var i :| 0 <= i < |nodes| && nodes[i] == node;
    var q := ResolvedSplits(node.value, b, c);
    var name := PathOf(node.value).value.name;
    assert Hop(nodes, name, i, t);
    if name in b && !(name in seed && q in seed[name]) {
      assert ByOthers(seed, nodes, r, name, q);
      var from, p, legs :| from != r && Carries(seed, nodes, from, p, legs, name, q);
      CarriedAcross(seed, nodes, from, p, legs, name, q, i, t);
    } else {
      assert q != [] && q[0] == c[0];
      assert Gained(nodes, []) == [] && q + [] == q;
      assert Carries(seed, nodes, name, q, [], name, q);
      CarriedAcross(seed, nodes, name, q, [], name, q, i, t);
    }
  }

  /** What binding adds, and that it adds all of it. */
  lemma {:induction false} BoundToOnly(targets: seq<string>, chains: set<Chain>, b: Bindings, n: string, c: Chain)
    requires n in BoundTo(targets, chains, b) && c in BoundTo(targets, chains, b)[n]
    ensures (n in b && c in b[n]) || (n in targets && c in chains)
  {
    if targets != [] {
      var init, last := targets[..|targets| - 1], targets[|targets| - 1];
      assert targets == init + [last];
      var mid := BoundTo(init, chains, b);
      if n in mid && c in mid[n] { BoundToOnly(init, chains, b, n, c); }
    }
  }

  lemma {:induction false} BoundToTakes(targets: seq<string>, chains: set<Chain>, b: Bindings, t: string)
    requires t in targets
    ensures t in BoundTo(targets, chains, b) && chains <= BoundTo(targets, chains, b)[t]
  {
    var init, last := targets[..|targets| - 1], targets[|targets| - 1];
    assert targets == init + [last];
    if t != last { BoundToTakes(init, chains, b, t); }
  }

  lemma TurnKeepsUnread(seed: Bindings, nodes: seq<AliasNode>, r: string, b: Bindings, node: AliasNode)
    requires WellSeeded(seed) && UnimportedRoot(seed, r) && Unread(seed, nodes, r, b) && node in nodes
    requires r in b || (PathOf(node.value).Some? && PathOf(node.value).value.name != r)
    ensures Unread(seed, nodes, r, Turned(node, b)) && Within(b, Turned(node, b))
  {
    var chains := AliasChains(node.value, b);
    BoundToGrows(node.targets, chains, b);
    forall n, c | n in Turned(node, b) && c in Turned(node, b)[n]
      ensures ByOthers(seed, nodes, r, n, c)
    {
      if !(n in b && c in b[n]) {
        BoundToOnly(node.targets, chains, b, n, c);
        OthersCarried(seed, nodes, r, b, node, n, c);
      }
    }
  }

  lemma {:induction false} PassKeepsUnread(seed: Bindings, nodes: seq<AliasNode>, r: string, b: Bindings,
                                        part: seq<AliasNode>)
    requires WellSeeded(seed) && UnimportedRoot(seed, r) && Unread(seed, nodes, r, b) && r in b
    requires forall node | node in part :: node in nodes
    ensures Unread(seed, nodes, r, OnePass(part, b)) && Within(b, OnePass(part, b))
  {
    if part != [] {
      PassKeepsUnread(seed, nodes, r, b, part[..|part| - 1]);
      TurnKeepsUnread(seed, nodes, r, OnePass(part[..|part| - 1], b), part[|part| - 1]);
    }
  }

  /** A walk that reads `r` nowhere on its way. */
  ghost predicate Avoids(nodes: seq<AliasNode>, from: string, legs: seq<Leg>, to: string, r: string)
    decreases |legs|
  {
    if legs == [] then from == to
    else from != r && Hop(nodes, from, legs[0].node, legs[0].to) && Avoids(nodes, legs[0].to, legs[1..], to, r)
  }

  lemma {:induction false} FirstArrival(nodes: seq<AliasNode>, from: string, legs: seq<Leg>,
                                        r: string) returns (first: seq<Leg>)
    requires Walk(nodes, from, legs, r) && from != r
    ensures first != [] && Avoids(nodes, from, first, r, r)
    decreases |legs|
  {
    if legs[0].to == r {
      first := [legs[0]];
      assert first[1..] == [];
    } else {
      var rest := FirstArrival(nodes, legs[0].to, legs[1..], r);
      first := [legs[0]] + rest;
      assert first[1..] == rest;
    }
  }

  /** The assignments of a walk, last leg last. */
  ghost function Route(nodes: seq<AliasNode>, legs: seq<Leg>): seq<AliasNode>
    requires forall l | l in legs :: l.node < |nodes|
  {
    seq(|legs|, i requires 0 <= i < |legs| => nodes[legs[i].node])
  }

  lemma {:induction false} AvoidsInRange(nodes: seq<AliasNode>, from: string, legs: seq<Leg>, to: string, r: string)
    requires Avoids(nodes, from, legs, to, r)
    ensures forall l | l in legs :: l.node < |nodes|
    decreases |legs|
  {
    if legs != [] {
      AvoidsInRange(nodes, legs[0].to, legs[1..], to, r);
      assert legs == [legs[0]] + legs[1..];
    }
  }

  lemma {:induction false} OnePassConcat(front: seq<AliasNode>, back: seq<AliasNode>, b: Bindings)
    ensures OnePass(front + back, b) == OnePass(back, OnePass(front, b))
  {
    if back == [] {
      assert front + back == front;
    } else {
      var init := back[..|back| - 1];
      OnePassConcat(front, init, b);
      assert (front + back)[..|front + back| - 1] == front + init;
    }
  }

  lemma RouteHead(nodes: seq<AliasNode>, legs: seq<Leg>, b: Bindings)
    requires legs != [] && forall l | l in legs :: l.node < |nodes|
    ensures OnePass(Route(nodes, legs), b) == OnePass(Route(nodes, legs[1..]), Turned(nodes[legs[0].node], b))
  {
    var node := nodes[legs[0].node];
    assert Route(nodes, legs) == [node] + Route(nodes, legs[1..]);
    OnePassConcat([node], Route(nodes, legs[1..]), b);
    assert [node][..0] == [];
  }

  ghost predicate HoldsTracked(b: Bindings, name: string) {
    exists c :: c in Held(b, name) && Tracked(c)
  }

  lemma TurnHandsOn(nodes: seq<AliasNode>, b: Bindings, from: string, i: nat, to: string)
    requires Hop(nodes, from, i, to) && HoldsTracked(b, from)
    ensures to in Turned(nodes[i], b) && HoldsTracked(Turned(nodes[i], b), to)
  {
    var c :| c in Held(b, from) && Tracked(c);
    PathResolves(nodes[i].value, b, c);
    var gained := c + AttrsAt(nodes, i);
    assert gained[0] == c[0];
    assert gained in AliasChains(nodes[i].value, b);
    BoundToTakes(nodes[i].targets, AliasChains(nodes[i].value, b), b, to);
    assert gained in Held(Turned(nodes[i], b), to);
  }

  /** Running along the walk binds `r` without ever reading its default. */
  lemma {:induction false} RouteBinds(seed: Bindings, nodes: seq<AliasNode>, r: string, from: string, legs: seq<Leg>,
                                      b: Bindings)
    requires WellSeeded(seed) && UnimportedRoot(seed, r) && Unread(seed, nodes, r, b)
    requires Avoids(nodes, from, legs, r, r) && (legs != [] || r in b) && HoldsTracked(b, from)
    requires forall l | l in legs :: l.node < |nodes|
    ensures Unread(seed, nodes, r, OnePass(Route(nodes, legs), b)) && r in OnePass(Route(nodes, legs), b)
    decreases |legs|
  {
    if legs != [] {
      var node := nodes[legs[0].node];
      TurnKeepsUnread(seed, nodes, r, b, node);
      TurnHandsOn(nodes, b, from, legs[0].node, legs[0].to);
      RouteBinds(seed, nodes, r, legs[0].to, legs[1..], Turned(node, b));
      RouteHead(nodes, legs, b);
    }
  }

  lemma {:induction false} LaterPassesKeepUnread(seed: Bindings, nodes: seq<AliasNode>, listing: seq<AliasNode>,
                                        r: string, k: nat)
    requires WellSeeded(seed) && UnimportedRoot(seed, r) && SameNodes(nodes, listing) && k > 0
    requires Unread(seed, nodes, r, OnePass(listing, seed)) && r in OnePass(listing, seed)
    ensures Unread(seed, nodes, r, Passes(listing, seed, k)) && r in Passes(listing, seed, k)
  {
    if k == 1 {
      assert Passes(listing, seed, 0) == seed;
    } else {
      LaterPassesKeepUnread(seed, nodes, listing, r, k - 1);
      PassKeepsUnread(seed, nodes, r, Passes(listing, seed, k - 1), listing);
    }
  }

  /** An unread default never comes back: only an import gives the root its own chain. */
  lemma UnreadRootIsImported(seed: Bindings, nodes: seq<AliasNode>, r: string, b: Bindings)
    requires UnimportedRoot(seed, r) && Unread(seed, nodes, r, b) && r in b && [r] in b[r]
    ensures ByImports(seed, nodes, r, [r])
  {
    assert ByOthers(seed, nodes, r, r, [r]);
    var from, p, legs :| from != r && Carries(seed, nodes, from, p, legs, r, [r]);
    assert |p| + |Gained(nodes, legs)| == 1;
    assert [r][0] == p[0];
    assert p == [r];
  }

  // ---- the assignments of a walk first, then the others --------------------------------------------

  predicate Simple(legs: seq<Leg>) {
    forall i, j | 0 <= i < j < |legs| :: legs[i].node != legs[j].node
  }

  function Visited(legs: seq<Leg>): set<int> {
    set l | l in legs :: l.node
  }

  /** The assignments among the first `n` that are not used. */
  function Others(nodes: seq<AliasNode>, used: set<int>, n: nat): seq<AliasNode>
    requires n <= |nodes|
  {
    if n == 0 then []
    else Others(nodes, used, n - 1) + if n - 1 in used then [] else [nodes[n - 1]]
  }

  lemma {:induction false} OthersListed(nodes: seq<AliasNode>, used: set<int>, n: nat)
    requires n <= |nodes|
    ensures forall node | node in Others(nodes, used, n) :: node in nodes
  {
    if n > 0 { OthersListed(nodes, used, n - 1); }
  }

  /** How often a list names an assignment. */
  function Times(list: seq<AliasNode>, node: AliasNode): nat {
    if list == [] then 0 else Times(list[..|list| - 1], node) + if list[|list| - 1] == node then 1 else 0
  }

  lemma TimesLast(list: seq<AliasNode>, last: AliasNode, node: AliasNode)
    ensures Times(list + [last], node) == Times(list, node) + if last == node then 1 else 0
  {
    assert (list + [last])[..|list|] == list;
  }

  lemma {:induction false} TimesJoin(a: seq<AliasNode>, b: seq<AliasNode>, node: AliasNode)
    ensures Times(a + b, node) == Times(a, node) + Times(b, node)
    decreases |b|
  {
    if b == [] {
      assert a + b == a;
    } else {
      var init := b[..|b| - 1];
      TimesJoin(a, init, node);
      assert (a + b)[..|a + b| - 1] == a + init;
    }
  }

  lemma {:induction false} TimesIsMultiplicity(list: seq<AliasNode>, node: AliasNode)
    ensures multiset(list)[node] == Times(list, node)
  {
    if list != [] {
      var init := list[..|list| - 1];
      TimesIsMultiplicity(init, node);
      assert list == init + [list[|list| - 1]];
    }
  }

  /** How often the unused assignments among the first `n` are `node`. */
  function Unused(nodes: seq<AliasNode>, used: set<int>, n: nat, node: AliasNode): nat
    requires n <= |nodes|
  {
    if n == 0 then 0
    else Unused(nodes, used, n - 1, node) + if n - 1 !in used && nodes[n - 1] == node then 1 else 0
  }

  lemma {:induction false} OthersAreUnused(nodes: seq<AliasNode>, used: set<int>, n: nat, node: AliasNode)
    requires n <= |nodes|
    ensures Times(Others(nodes, used, n), node) == Unused(nodes, used, n, node)
  {
    if n > 0 {
      var rest := Others(nodes, used, n - 1);
      OthersAreUnused(nodes, used, n - 1, node);
      if n - 1 in used {
        assert rest + [] == rest;
      } else {
        TimesLast(rest, nodes[n - 1], node);
      }
    }
  }

  /** Past `i`, using it up takes exactly `nodes[i]` away. */
  lemma {:induction false} UnusedLoses(nodes: seq<AliasNode>, used: set<int>, more: set<int>, i: nat, n: nat,
                                       node: AliasNode)
    requires n <= |nodes| && i < |nodes| && i !in used && forall k :: k in more <==> k in used || k == i
    ensures Unused(nodes, used, n, node)
            == Unused(nodes, more, n, node) + if i < n && nodes[i] == node then 1 else 0
  {
    if n > 0 { UnusedLoses(nodes, used, more, i, n - 1, node); }
  }

  lemma {:induction false} NoOthers(nodes: seq<AliasNode>, n: nat)
    requires n <= |nodes|
    ensures Others(nodes, {}, n) == nodes[..n]
  {
    if n > 0 { NoOthers(nodes, n - 1); }
  }

  lemma LastVisited(nodes: seq<AliasNode>, init: seq<Leg>, last: Leg)
    requires Simple(init + [last]) && forall l | l in init + [last] :: l.node < |nodes|
    ensures last.node < |nodes| && Simple(init) && forall l | l in init :: l.node < |nodes|
    ensures forall k :: k in Visited(init + [last]) <==> k in Visited(init) || k == last.node
    ensures last.node !in Visited(init)
    ensures Route(nodes, init + [last]) == Route(nodes, init) + [nodes[last.node]]
  {
    var legs := init + [last];
    assert legs[|init|] == last && last in legs;
    forall i | 0 <= i < |init|
      ensures init[i].node != last.node
    {
      assert legs[i] == init[i];
    }
    forall i, j | 0 <= i < j < |init|
      ensures init[i].node != init[j].node
    {
      assert legs[i] == init[i] && legs[j] == init[j];
    }
    assert forall l | l in init :: l in legs;
  }

  /** Using up the assignments of a simple walk one by one. */
  lemma {:induction false} RouteAndOthers(nodes: seq<AliasNode>, legs: seq<Leg>, node: AliasNode)
    requires Simple(legs) && forall l | l in legs :: l.node < |nodes|
    ensures Times(Route(nodes, legs), node) + Times(Others(nodes, Visited(legs), |nodes|), node) == Times(nodes, node)
    decreases |legs|
  {
    if legs == [] {
      NoOthers(nodes, |nodes|);
      assert Visited(legs) == {} && nodes[..|nodes|] == nodes;
    } else {
      var init, last := legs[..|legs| - 1], legs[|legs| - 1];
      assert legs == init + [last];
      LastVisited(nodes, init, last);
      RouteAndOthers(nodes, init, node);
      TimesLast(Route(nodes, init), nodes[last.node], node);
      OthersAreUnused(nodes, Visited(init), |nodes|, node);
      OthersAreUnused(nodes, Visited(legs), |nodes|, node);
      UnusedLoses(nodes, Visited(init), Visited(legs), last.node, |nodes|, node);
    }
  }

  /** The order that takes a simple walk first. */
  ghost function WalkFirst(nodes: seq<AliasNode>, legs: seq<Leg>): seq<AliasNode>
    requires forall l | l in legs :: l.node < |nodes|
  {
    Route(nodes, legs) + Others(nodes, Visited(legs), |nodes|)
  }

  lemma WalkFirstLists(nodes: seq<AliasNode>, legs: seq<Leg>)
    requires Simple(legs) && forall l | l in legs :: l.node < |nodes|
    ensures Listing(nodes, WalkFirst(nodes, legs))
  {
    var listing := WalkFirst(nodes, legs);
    forall node: AliasNode
      ensures multiset(listing)[node] == multiset(nodes)[node]
    {
      RouteAndOthers(nodes, legs, node);
      TimesJoin(Route(nodes, legs), Others(nodes, Visited(legs), |nodes|), node);
      TimesIsMultiplicity(listing, node);
      TimesIsMultiplicity(nodes, node);
    }
  }

  // ---- cutting a walk -------------------------------------------------------------------------------

  function Source(nodes: seq<AliasNode>, leg: Leg): string {
    if leg.node < |nodes| && PathOf(nodes[leg.node].value).Some? then PathOf(nodes[leg.node].value).value.name else ""
  }

  /** A walk up to its k-th leg, and from there. */
  lemma {:induction false} WalkSplits(nodes: seq<AliasNode>, from: string, legs: seq<Leg>, to: string, k: nat)
    requires Walk(nodes, from, legs, to) && k < |legs|
    ensures Walk(nodes, from, legs[..k], Source(nodes, legs[k]))
    ensures Walk(nodes, Source(nodes, legs[k]), legs[k..], to)
    decreases k
  {
    if k > 0 {
      WalkSplits(nodes, legs[0].to, legs[1..], to, k - 1);
      assert legs[1..][..k - 1] == legs[..k][1..] && legs[1..][k - 1..] == legs[k..];
    }
  }

  lemma {:induction false} WalkJoins(nodes: seq<AliasNode>, from: string, a: seq<Leg>, mid: string, b: seq<Leg>,
                                     to: string)
    requires Walk(nodes, from, a, mid) && Walk(nodes, mid, b, to)
    ensures Walk(nodes, from, a + b, to)
    decreases |a|
  {
    if a == [] {
      assert a + b == b;
    } else {
      WalkJoins(nodes, a[0].to, a[1..], mid, b, to);
      assert (a + b)[1..] == a[1..] + b;
    }
  }

  lemma {:induction false} GainedJoins(nodes: seq<AliasNode>, a: seq<Leg>, b: seq<Leg>)
    ensures Gained(nodes, a + b) == Gained(nodes, a) + Gained(nodes, b)
    decreases |a|
  {
    if a == [] {
      assert a + b == b;
    } else {
      assert (a + b)[1..] == a[1..] + b;
      GainedJoins(nodes, a[1..], b);
    }
  }

  /** Between two uses of the same assignment a walk is a cycle. */
  lemma CycleBetween(nodes: seq<AliasNode>, from: string, legs: seq<Leg>, to: string, i: nat, j: nat)
    requires Walk(nodes, from, legs, to) && i < j < |legs| && legs[i].node == legs[j].node
    ensures var at := Source(nodes, legs[i]);
            && Walk(nodes, from, legs[..i], at) && Walk(nodes, at, legs[i..j], at) && Walk(nodes, at, legs[j..], to)
  {
    var at := Source(nodes, legs[i]);
    WalkSplits(nodes, from, legs, to, j);
    WalkSplits(nodes, from, legs, to, i);
    WalkSplits(nodes, at, legs[i..], to, j - i);
    assert legs[i..][..j - i] == legs[i..j];
  }

  lemma GainedAround(nodes: seq<AliasNode>, legs: seq<Leg>, i: nat, j: nat)
    requires i <= j <= |legs| && Gained(nodes, legs[i..j]) == []
    ensures Gained(nodes, legs[..i] + legs[j..]) == Gained(nodes, legs)
  {
    var a, b, c := legs[..i], legs[i..j], legs[j..];
    assert legs == a + (b + c);
    GainedJoins(nodes, a, b + c);
    GainedJoins(nodes, b, c);
    GainedJoins(nodes, a, c);
    assert [] + Gained(nodes, c) == Gained(nodes, c);
  }

  /** What lies between two uses of the same assignment is a live cycle, so it gains nothing. */
  lemma CycleGainsNothing(seed: Bindings, nodes: seq<AliasNode>, from: string, legs: seq<Leg>, to: string,
                          i: nat, j: nat)
    requires !LiveLengtheningCycle(seed, nodes) && Seeded(seed, from) && Walk(nodes, from, legs, to)
    requires i < j < |legs| && legs[i].node == legs[j].node
    ensures Walk(nodes, from, legs[..i] + legs[j..], to)
    ensures Gained(nodes, legs[..i] + legs[j..]) == Gained(nodes, legs)
  {
    var at := Source(nodes, legs[i]);
    CycleBetween(nodes, from, legs, to, i, j);
    WalkJoins(nodes, from, legs[..i], at, legs[j..], to);
    assert Live(seed, nodes, at);
    assert !LengtheningCycle(nodes, at, legs[i..j]);
    GainedAround(nodes, legs, i, j);
  }

  /** Cut the cycles of a walk: the same ends, the same gain, each assignment at most once. */
  lemma {:induction false} Simplify(seed: Bindings, nodes: seq<AliasNode>, from: string, legs: seq<Leg>, to: string)
    returns (short: seq<Leg>)
    requires !LiveLengtheningCycle(seed, nodes) && Seeded(seed, from) && Walk(nodes, from, legs, to)
    ensures Walk(nodes, from, short, to) && Simple(short) && Gained(nodes, short) == Gained(nodes, legs)
    ensures forall l | l in short :: l in legs
    ensures legs != [] ==> short != []
    decreases |legs|
  {
    if Simple(legs) { return legs; }
    var i, j :| 0 <= i < j < |legs| && legs[i].node == legs[j].node;
    var cut := legs[..i] + legs[j..];
    CycleGainsNothing(seed, nodes, from, legs, to, i, j);
    assert forall l | l in cut :: l in legs;
    short := Simplify(seed, nodes, from, cut, to);
  }

  lemma {:induction false} AvoidsIff(nodes: seq<AliasNode>, from: string, legs: seq<Leg>, to: string, r: string)
    requires Walk(nodes, from, legs, to)
    ensures Avoids(nodes, from, legs, to, r) <==> forall l | l in legs :: Source(nodes, l) != r
    decreases |legs|
  {
    if legs != [] {
      AvoidsIff(nodes, legs[0].to, legs[1..], to, r);
      assert Source(nodes, legs[0]) == from;
      assert forall l :: l in legs <==> l == legs[0] || l in legs[1..];
    }
  }

  lemma {:induction false} AvoidingWalks(nodes: seq<AliasNode>, from: string, legs: seq<Leg>, to: string, r: string)
    requires Avoids(nodes, from, legs, to, r)
    ensures Walk(nodes, from, legs, to)
    decreases |legs|
  {
    if legs != [] { AvoidingWalks(nodes, legs[0].to, legs[1..], to, r); }
  }

  // ---- the order that loses a root ------------------------------------------------------------------

  lemma FirstPassLoses(seed: Bindings, nodes: seq<AliasNode>, r: string, from: string, legs: seq<Leg>)
    requires WellSeeded(seed) && UnimportedRoot(seed, r) && Seeded(seed, from)
    requires legs != [] && Avoids(nodes, from, legs, r, r)
    requires Simple(legs) && forall l | l in legs :: l.node < |nodes|
    ensures var b := OnePass(WalkFirst(nodes, legs), seed);
            Unread(seed, nodes, r, b) && r in b
  {
    assert HoldsTracked(seed, from) by {
      if from !in seed { assert [from] in Held(seed, from); }
    }
    var others := Others(nodes, Visited(legs), |nodes|);
    OthersListed(nodes, Visited(legs), |nodes|);
    RouteBinds(seed, nodes, r, from, legs, seed);
    OnePassConcat(Route(nodes, legs), others, seed);
    PassKeepsUnread(seed, nodes, r, OnePass(Route(nodes, legs), seed), others);
  }

  lemma ListingLoses(seed: Bindings, nodes: seq<AliasNode>, listing: seq<AliasNode>, r: string, b: Bindings)
    requires WellSeeded(seed) && UnimportedRoot(seed, r) && !ByImports(seed, nodes, r, [r]) && SameNodes(nodes, listing)
    requires Unread(seed, nodes, r, OnePass(listing, seed)) && r in OnePass(listing, seed)
    requires LoopResult(seed, listing, b)
    ensures r in b && [r] !in b[r]
  {
    var k :| Passes(listing, seed, k) == b;
    if k > 0 { LaterPassesKeepUnread(seed, nodes, listing, r, k); }
    if [r] in b[r] { UnreadRootIsImported(seed, nodes, r, b); }
  }

  lemma ListingHasResult(seed: Bindings, nodes: seq<AliasNode>, listing: seq<AliasNode>) returns (b: Bindings)
    requires WellSeeded(seed) && !LiveLengtheningCycle(seed, nodes) && SameNodes(nodes, listing)
    ensures LoopResult(seed, listing, b)
  {
    if LiveLengtheningCycle(seed, listing) { CycleRelists(seed, listing, nodes); }
    b := ResultExists(seed, listing);
  }

  /** The listing that takes the walk first loses the root. */
  lemma UnsafeRootIsLost(seed: Bindings, nodes: seq<AliasNode>, r: string)
    returns (listing: seq<AliasNode>, b: Bindings)
    requires WellSeeded(seed) && !LiveLengtheningCycle(seed, nodes)
    requires UnimportedRoot(seed, r) && !RootSafe(seed, nodes, r)
    ensures Listing(nodes, listing) && LoopResult(seed, listing, b) && !Admissible(seed, nodes, b)
    ensures r in b && [r] !in b[r]
  {
    var from, legs :| Seeded(seed, from) && Walk(nodes, from, legs, r) && from != r;
    var first := FirstArrival(nodes, from, legs, r);
    AvoidingWalks(nodes, from, first, r, r);
    var short := Simplify(seed, nodes, from, first, r);
    AvoidsIff(nodes, from, first, r, r);
    AvoidsIff(nodes, from, short, r, r);
    AvoidsInRange(nodes, from, short, r, r);
    listing := WalkFirst(nodes, short);
    WalkFirstLists(nodes, short);
    ListingHasSameNodes(nodes, listing);
    FirstPassLoses(seed, nodes, r, from, short);
    b := ListingHasResult(seed, nodes, listing);
    ListingLoses(seed, nodes, listing, r, b);
    assert !RootsKept(seed, b);
  }

  /** Every order of the assignments gives a result that keeps the roots exactly when each unimported root
      is never rebound, gets its chain back from an import, or is rebound from itself alone. */
  lemma EveryOrderKeepsRootsIff(seed: Bindings, nodes: seq<AliasNode>)
    requires WellSeeded(seed) && !LiveLengtheningCycle(seed, nodes)
    ensures (forall listing, b | Listing(nodes, listing) && LoopResult(seed, listing, b) :: Admissible(seed, nodes, b))
            <==> RootsSafe(seed, nodes)
  {
    if RootsSafe(seed, nodes) {
      forall listing, b | Listing(nodes, listing) && LoopResult(seed, listing, b)
        ensures Admissible(seed, nodes, b)
      {
        ListingHasSameNodes(nodes, listing);
        ResultIsClosedState(seed, listing, b);
        if LiveLengtheningCycle(seed, listing) { CycleRelists(seed, listing, nodes); }
        forall r | UnimportedRoot(seed, r) && r in b
          ensures [r] in b[r]
        {
          SafeRelists(seed, nodes, listing, r);
          SafeRootIsKept(seed, listing, b, r);
        }
      }
    } else {
      var r :| UnimportedRoot(seed, r) && !RootSafe(seed, nodes, r);
      var listing, b := UnsafeRootIsLost(seed, nodes, r);
    }
  }

  // ---- leastness in every order -----------------------------------------------------------------------

  lemma {:induction false} WalkInRange(nodes: seq<AliasNode>, from: string, legs: seq<Leg>, to: string)
    requires Walk(nodes, from, legs, to)
    ensures forall l | l in legs :: l.node < |nodes|
    decreases |legs|
  {
    if legs != [] {
      WalkInRange(nodes, legs[0].to, legs[1..], to);
      assert legs == [legs[0]] + legs[1..];
    }
  }

  lemma TurnCarries(nodes: seq<AliasNode>, b: Bindings, from: string, c: Chain, i: nat, to: string)
    requires Hop(nodes, from, i, to) && c in Held(b, from) && Tracked(c)
    ensures to in Turned(nodes[i], b) && c + AttrsAt(nodes, i) in Turned(nodes[i], b)[to]
    ensures Tracked(c + AttrsAt(nodes, i))
  {
    PathResolves(nodes[i].value, b, c);
    assert (c + AttrsAt(nodes, i))[0] == c[0];
    assert c + AttrsAt(nodes, i) in AliasChains(nodes[i].value, b);
    BoundToTakes(nodes[i].targets, AliasChains(nodes[i].value, b), b, to);
  }

  /** Running along a walk carries the chain to its end. */
  lemma {:induction false} RouteCarries(nodes: seq<AliasNode>, b: Bindings, from: string, c: Chain, legs: seq<Leg>,
                                        to: string,
                                        d: Chain)
    requires Walk(nodes, from, legs, to) && c in Held(b, from) && Tracked(c) && (legs != [] || from in b)
    requires d == c + Gained(nodes, legs) && forall l | l in legs :: l.node < |nodes|
    ensures to in OnePass(Route(nodes, legs), b) && d in OnePass(Route(nodes, legs), b)[to]
    decreases |legs|
  {
    if legs == [] {
      assert c + [] == c;
    } else {
      TurnCarries(nodes, b, from, c, legs[0].node, legs[0].to);
      GainedSplits(nodes, legs, c);
      RouteHead(nodes, legs, b);
      var node := legs[0].node;
      RouteCarries(nodes, Turned(nodes[node], b), legs[0].to, c + AttrsAt(nodes, node), legs[1..], to, d);
    }
  }

  lemma {:induction false} OnePassGrows(nodes: seq<AliasNode>, b: Bindings)
    ensures Within(b, OnePass(nodes, b))
  {
    if nodes != [] {
      OnePassGrows(nodes[..|nodes| - 1], b);
      var mid := OnePass(nodes[..|nodes| - 1], b);
      BoundToGrows(nodes[|nodes| - 1].targets, AliasChains(nodes[|nodes| - 1].value, mid), mid);
    }
  }

  lemma {:induction false} PassesGrow(nodes: seq<AliasNode>, seed: Bindings, k: nat)
    requires k > 0
    ensures Within(OnePass(nodes, seed), Passes(nodes, seed, k))
  {
    if k == 1 {
      assert Passes(nodes, seed, 0) == seed;
    } else {
      PassesGrow(nodes, seed, k - 1);
      OnePassGrows(nodes, Passes(nodes, seed, k - 1));
    }
  }

  lemma ResultAboveFirstPass(seed: Bindings, nodes: seq<AliasNode>, b: Bindings)
    requires LoopResult(seed, nodes, b)
    ensures Within(OnePass(nodes, seed), b)
  {
    var k :| Passes(nodes, seed, k) == b;
    if k > 0 { PassesGrow(nodes, seed, k); }
  }

  lemma StartIsSeeded(seed: Bindings, from: string, p: Chain)
    requires Start(seed, from, p)
    ensures Seeded(seed, from)
  {
  }

  /** The order that takes the walk of a derivable chain first holds that chain. */
  lemma DerivableIsReached(seed: Bindings, nodes: seq<AliasNode>, name: string, c: Chain)
    returns (listing: seq<AliasNode>, b: Bindings)
    requires WellSeeded(seed) && !LiveLengtheningCycle(seed, nodes) && Derived(seed, nodes, name, c)
    ensures Listing(nodes, listing) && LoopResult(seed, listing, b) && name in b && c in b[name]
  {
    var from, p, legs :| Carries(seed, nodes, from, p, legs, name, c) && (name in seed || legs != []);
    StartIsSeeded(seed, from, p);
    var short := Simplify(seed, nodes, from, legs, name);
    WalkInRange(nodes, from, short, name);
    listing := WalkFirst(nodes, short);
    WalkFirstLists(nodes, short);
    ListingHasSameNodes(nodes, listing);
    RouteCarries(nodes, seed, from, p, short, name, c);
    OnePassConcat(Route(nodes, short), Others(nodes, Visited(short), |nodes|), seed);
    OnePassGrows(Others(nodes, Visited(short), |nodes|), OnePass(Route(nodes, short), seed));
    b := ListingHasResult(seed, nodes, listing);
    ResultAboveFirstPass(seed, listing, b);
  }

  lemma {:induction false} StateRelists(seed: Bindings, nodes: seq<AliasNode>, listing: seq<AliasNode>, b: Bindings)
    requires SameNodes(nodes, listing) && LoopState(seed, listing, b)
    ensures LoopState(seed, nodes, b)
  {
    forall n, c | n in b && c in b[n]
      ensures Explained(seed, nodes, n, c)
    {
      if !(n in seed && c in seed[n]) {
        var from, p, legs :| Carries(seed, listing, from, p, legs, n, c) && (n in seed || legs != []);
        var legs' := WalkRelists(listing, nodes, from, legs, n);
        assert Carries(seed, nodes, from, p, legs', n, c);
      }
    }
    forall n | n in AllTargets(listing)
      ensures n in AllTargets(nodes)
    {
      var node :| node in listing && n in node.targets;
      TargetListed(nodes, node, n);
    }
  }

  /** Nothing that assignments can carry needs the default of an unimported root. */
  ghost predicate ImportsSuffice(seed: Bindings, nodes: seq<AliasNode>) {
    forall name, c | Derived(seed, nodes, name, c) :: ByImports(seed, nodes, name, c)
  }

  lemma ImportsSufficeExplains(seed: Bindings, nodes: seq<AliasNode>, b: Bindings)
    requires LoopState(seed, nodes, b) && ImportsSuffice(seed, nodes)
    ensures ImportsExplain(seed, nodes, b)
  {
  }

  lemma ListingIsLeastIff(seed: Bindings, nodes: seq<AliasNode>, listing: seq<AliasNode>, b: Bindings)
    requires WellSeeded(seed) && SameNodes(nodes, listing) && LoopResult(seed, listing, b)
    ensures LoopState(seed, nodes, b)
    ensures Least(seed, nodes, b) <==> ImportsExplain(seed, nodes, b)
  {
    ResultIsClosedState(seed, listing, b);
    StateRelists(seed, nodes, listing, b);
    ResultIsLeastIff(seed, nodes, b);
  }

  lemma SomeOrderNeedsDefaults(seed: Bindings, nodes: seq<AliasNode>) returns (listing: seq<AliasNode>, b: Bindings)
    requires WellSeeded(seed) && !LiveLengtheningCycle(seed, nodes) && !ImportsSuffice(seed, nodes)
    ensures Listing(nodes, listing) && LoopResult(seed, listing, b) && !Least(seed, nodes, b)
  {
    var name, c :| Derived(seed, nodes, name, c) && !ByImports(seed, nodes, name, c);
    listing, b := DerivableIsReached(seed, nodes, name, c);
    ListingHasSameNodes(nodes, listing);
    ListingIsLeastIff(seed, nodes, listing, b);
  }

  /** Every order of the assignments gives a result below every closed map above the imports exactly when
      nothing that assignments can carry needs the default of an unimported root. */
  lemma EveryOrderIsLeastIff(seed: Bindings, nodes: seq<AliasNode>)
    requires WellSeeded(seed) && !LiveLengtheningCycle(seed, nodes)
    ensures (forall listing, b | Listing(nodes, listing) && LoopResult(seed, listing, b) :: Least(seed, nodes, b))
            <==> ImportsSuffice(seed, nodes)
  {
    if ImportsSuffice(seed, nodes) {
      forall listing, b | Listing(nodes, listing) && LoopResult(seed, listing, b)
        ensures Least(seed, nodes, b)
      {
        ListingHasSameNodes(nodes, listing);
        ListingIsLeastIff(seed, nodes, listing, b);
        ImportsSufficeExplains(seed, nodes, b);
      }
    } else {
      var listing, b := SomeOrderNeedsDefaults(seed, nodes);
    }
  }
}
