/** Steps 5 and 6 of `bradley_terry_rankings`: the undirected comparison
    graph, its connected components in the order networkx yields them, the
    first largest component, and the comparisons restricted to it. */
module Connectivity {
  import opened Wrappers
  import opened Seqs
  import opened Indexing
  import opened Activity

  /** `a` and `b` share a comparison, whichever of them won it. */
  predicate Adjacent(es: seq<Comparison>, a: nat, b: nat) {
    exists c :: c in es && ((c.winner == a && c.loser == b) || (c.winner == b && c.loser == a))
  }

  /** A walk along comparisons, direction ignored. */
  ghost predicate IsPath(es: seq<Comparison>, p: seq<nat>) {
    |p| > 0 && forall i :: 0 <= i < |p| - 1 ==> Adjacent(es, p[i], p[i + 1])
  }

  /** `b` can be reached from `a` by a walk along comparisons. */
  ghost predicate Reachable(es: seq<Comparison>, a: nat, b: nat) {
    exists p :: IsPath(es, p) && p[0] == a && p[|p| - 1] == b
  }

  lemma ReachableRefl(es: seq<Comparison>, a: nat)
    ensures Reachable(es, a, a)
  {
    assert IsPath(es, [a]);
  }

  lemma ReachableStep(es: seq<Comparison>, a: nat, b: nat, c: nat)
    requires Reachable(es, a, b) && Adjacent(es, b, c)
    ensures Reachable(es, a, c)
  {
    var p :| IsPath(es, p) && p[0] == a && p[|p| - 1] == b;
    var q := p + [c];
    assert forall i :: 0 <= i < |q| - 1 ==> q[i] == p[i];
    assert IsPath(es, q);
  }

  lemma ReachableSymmetric(es: seq<Comparison>, a: nat, b: nat)
    requires Reachable(es, a, b)
    ensures Reachable(es, b, a)
  {
    var p :| IsPath(es, p) && p[0] == a && p[|p| - 1] == b;
    var q := seq(|p|, i requires 0 <= i < |p| => p[|p| - 1 - i]);
    forall i | 0 <= i < |q| - 1 ensures Adjacent(es, q[i], q[i + 1]) {
      var j := |p| - 2 - i;
      assert Adjacent(es, p[j], p[j + 1]);
    }
    assert IsPath(es, q);
  }

  lemma ReachableTrans(es: seq<Comparison>, a: nat, b: nat, c: nat)
    requires Reachable(es, a, b) && Reachable(es, b, c)
    ensures Reachable(es, a, c)
  {
    var p :| IsPath(es, p) && p[0] == a && p[|p| - 1] == b;
    var q :| IsPath(es, q) && q[0] == b && q[|q| - 1] == c;
    var r := p + q[1..];
    forall i | 0 <= i < |r| - 1 ensures Adjacent(es, r[i], r[i + 1]) {
      if i < |p| - 1 {
        assert r[i] == p[i] && r[i + 1] == p[i + 1];
      } else {
        var j := i - (|p| - 1);
        assert r[i] == q[j] && r[i + 1] == q[j + 1];
      }
    }
    assert IsPath(es, r);
  }

  /** The teams one comparison away from some team of `s`. */
  function Neighbours(es: seq<Comparison>, s: set<nat>): (r: set<nat>)
    ensures r <= Teams(es)
    ensures forall a, b :: a in s && Adjacent(es, a, b) ==> b in r
  {
    forall c | c in es ensures c.winner in Teams(es) && c.loser in Teams(es) {
      TeamsAreEndpoints(es, c.winner);
      TeamsAreEndpoints(es, c.loser);
    }
    (set c | c in es && c.winner in s :: c.loser) + (set c | c in es && c.loser in s :: c.winner)
  }

  /** Every neighbour is one comparison away from a team of `s`. */
  lemma NeighbourHasSource(es: seq<Comparison>, s: set<nat>, b: nat) returns (a: nat)
    requires b in Neighbours(es, s)
    ensures a in s && Adjacent(es, a, b)
  {
    var c :| c in es && ((c.winner in s && c.loser == b) || (c.loser in s && c.winner == b));
    a := if c.winner in s && c.loser == b then c.winner else c.loser;
  }

  lemma ProperSubsetShrinksRest(t: set<nat>, s: set<nat>, next: set<nat>)
    requires s <= next <= t && next != s
    ensures |t - next| < |t - s|
  {
    var x :| x in next && x !in s;
    SubsetCardinality(t - next, (t - s) - {x});
  }

  lemma {:induction false} SubsetCardinality(a: set<nat>, b: set<nat>)
    requires a <= b
    ensures |a| <= |b|
    decreases a
  {
    if a != {} {
      var y :| y in a;
      SubsetCardinality(a - {y}, b - {y});
    }
  }

  /** Grows `s` by neighbours until nothing new is added: the set of teams
      a breadth-first search from `s` visits. */
  function Closure(es: seq<Comparison>, s: set<nat>): (r: set<nat>)
    requires s <= Teams(es)
    ensures s <= r <= Teams(es)
    ensures Neighbours(es, r) <= r
    decreases |Teams(es) - s|
  {
    var next := s + Neighbours(es, s);
    if next == s then s
    else
      ProperSubsetShrinksRest(Teams(es), s, next);
      Closure(es, next)
  }

  /** The connected component of team `v`. */
  function Component(es: seq<Comparison>, v: nat): (r: set<nat>)
    requires v in Teams(es)
    ensures v in r && r <= Teams(es)
  {
    Closure(es, {v})
  }

  lemma {:induction false} ClosureSound(es: seq<Comparison>, s: set<nat>, v: nat)
    requires s <= Teams(es)
    requires forall u :: u in s ==> Reachable(es, v, u)
    ensures forall u :: u in Closure(es, s) ==> Reachable(es, v, u)
    decreases |Teams(es) - s|
  {
    var next := s + Neighbours(es, s);
    if next != s {
      forall b | b in next ensures Reachable(es, v, b) {
        if b !in s {
          var a := NeighbourHasSource(es, s, b);
          ReachableStep(es, v, a, b);
        }
      }
      ProperSubsetShrinksRest(Teams(es), s, next);
      ClosureSound(es, next, v);
    }
  }

  lemma {:induction false} ClosedSetContainsPath(es: seq<Comparison>, r: set<nat>, p: seq<nat>, k: nat)
    requires Neighbours(es, r) <= r
    requires IsPath(es, p) && p[0] in r && k < |p|
    ensures p[k] in r
  {
    if k > 0 {
      ClosedSetContainsPath(es, r, p, k - 1);
      assert Adjacent(es, p[k - 1], p[k]);
    }
  }

  /** The component of `v` is exactly the set of teams reachable from `v`. */
  lemma ComponentIsReachableSet(es: seq<Comparison>, v: nat, u: nat)
    requires v in Teams(es)
    ensures u in Component(es, v) <==> Reachable(es, v, u)
  {
    ReachableRefl(es, v);
    ClosureSound(es, {v}, v);
    if Reachable(es, v, u) {
      var p :| IsPath(es, p) && p[0] == v && p[|p| - 1] == u;
      ClosedSetContainsPath(es, Component(es, v), p, |p| - 1);
    }
  }

  /** Two teams of one component have the same component. */
  lemma SameComponent(es: seq<Comparison>, v: nat, u: nat)
    requires v in Teams(es) && u in Component(es, v)
    ensures u in Teams(es) && Component(es, u) == Component(es, v)
  {
    ComponentIsReachableSet(es, v, u);
    ReachableSymmetric(es, v, u);
    forall x ensures x in Component(es, u) <==> x in Component(es, v) {
      ComponentIsReachableSet(es, u, x);
      ComponentIsReachableSet(es, v, x);
      if Reachable(es, u, x) {
        ReachableTrans(es, v, u, x);
      }
      if Reachable(es, v, x) {
        ReachableTrans(es, u, v, x);
      }
    }
  }

  /** A component is closed under comparisons: a comparison has its winner in
      the component exactly when it has its loser there. */
  lemma ComponentClosed(es: seq<Comparison>, v: nat, c: Comparison)
    requires v in Teams(es) && c in es
    ensures c.winner in Component(es, v) <==> c.loser in Component(es, v)
  {
    assert Adjacent(es, c.winner, c.loser) && Adjacent(es, c.loser, c.winner);
  }

  /** Teams in the order `G.add_edge(winner, loser)` inserts them: winner,
      then loser, comparison by comparison. */
  function NodeSequence(es: seq<Comparison>): (r: seq<nat>)
    ensures forall n :: n in r <==> n in Teams(es)
  {
    if |es| == 0 then []
    else NodeSequence(es[..|es| - 1]) + [es[|es| - 1].winner, es[|es| - 1].loser]
  }

  /** The graph's nodes, in insertion order, each once. */
  function NodeOrder(es: seq<Comparison>): (r: seq<nat>)
    ensures forall n :: n in r <==> n in Teams(es)
  {
    Dedup(NodeSequence(es))
  }

  /** `nx.connected_components`: walk the nodes in order and yield the
      component of every node that no earlier component contains. */
  function ComponentsFrom(es: seq<Comparison>, nodes: seq<nat>, seen: set<nat>): (cs: seq<set<nat>>)
    requires forall n :: n in nodes ==> n in Teams(es)
    ensures |cs| <= |nodes|
    decreases |nodes|
  {
    if |nodes| == 0 then []
    else if nodes[0] in seen then ComponentsFrom(es, nodes[1..], seen)
    else
      var c := Component(es, nodes[0]);
      [c] + ComponentsFrom(es, nodes[1..], seen + c)
  }

  /** Every yielded set is the component of a node that was neither seen
      before the walk nor covered by an earlier yielded set. */
  lemma {:induction false} YieldedAreComponents(es: seq<Comparison>, nodes: seq<nat>, seen: set<nat>, i: nat)
    returns (v: nat)
    requires forall n :: n in nodes ==> n in Teams(es)
    requires i < |ComponentsFrom(es, nodes, seen)|
    ensures v in nodes && v !in seen && ComponentsFrom(es, nodes, seen)[i] == Component(es, v)
    ensures forall j :: 0 <= j < i ==> v !in ComponentsFrom(es, nodes, seen)[j]
    decreases |nodes|
  {
    var tail := nodes[1..];
    assert forall m :: m in tail ==> m in nodes;
    if nodes[0] in seen {
      assert ComponentsFrom(es, nodes, seen) == ComponentsFrom(es, tail, seen);
      v := YieldedAreComponents(es, tail, seen, i);
    } else {
      var c := Component(es, nodes[0]);
      var rest := ComponentsFrom(es, tail, seen + c);
      assert ComponentsFrom(es, nodes, seen) == [c] + rest;
      if i == 0 {
        v := nodes[0];
      } else {
        v := YieldedAreComponents(es, tail, seen + c, i - 1);
      }
    }
  }

  /** Every node not yet seen lies in some yielded set. */
  lemma {:induction false} YieldedCoverNodes(es: seq<Comparison>, nodes: seq<nat>, seen: set<nat>, n: nat)
    returns (i: nat)
    requires forall n :: n in nodes ==> n in Teams(es)
    requires n in nodes && n !in seen
    ensures i < |ComponentsFrom(es, nodes, seen)| && n in ComponentsFrom(es, nodes, seen)[i]
    decreases |nodes|
  {
    if nodes[0] in seen {
      i := YieldedCoverNodes(es, nodes[1..], seen, n);
    } else {
      var c := Component(es, nodes[0]);
      if n in c {
        i := 0;
      } else {
        i := YieldedCoverNodes(es, nodes[1..], seen + c, n);
        i := i + 1;
      }
    }
  }

  /** `list(nx.connected_components(G))`. */
  function Components(es: seq<Comparison>): seq<set<nat>> {
    ComponentsFrom(es, NodeOrder(es), {})
  }

  /** Index of the first set of greatest size, the one Python's `max(..., key=len)`
      returns: it replaces its candidate only on a strictly larger size. */
  function FirstLargest(cs: seq<set<nat>>): (r: nat)
    requires |cs| > 0
    ensures r < |cs|
    ensures forall j :: 0 <= j < |cs| ==> |cs[j]| <= |cs[r]|
    ensures forall j :: 0 <= j < r ==> |cs[j]| < |cs[r]|
  {
    if |cs| == 1 then 0
    else
      var r := FirstLargest(cs[..|cs| - 1]);
      if |cs[|cs| - 1]| > |cs[r]| then |cs| - 1 else r
  }

  /** `largest_cc = max(components, key=len)`; `None` where `max` raises
      because there are no components at all. */
  function LargestComponent(es: seq<Comparison>): Option<set<nat>> {
    var cs := Components(es);
    if |cs| == 0 then None else Some(cs[FirstLargest(cs)])
  }

  /** There is a largest component exactly when there is a comparison. */
  lemma LargestComponentExists(es: seq<Comparison>)
    ensures LargestComponent(es).Some? <==> es != []
  {
    var nodes := NodeOrder(es);
    if es != [] {
      var c := es[|es| - 1];
      assert c.winner in Teams(es);
      var i := YieldedCoverNodes(es, nodes, {}, c.winner);
    } else {
      assert nodes == [];
    }
  }

  /** The largest component is the component of one of the teams, and no
      team's component is larger. */
  lemma LargestComponentIsMaximal(es: seq<Comparison>) returns (v: nat)
    requires LargestComponent(es).Some?
    ensures v in Teams(es) && LargestComponent(es).value == Component(es, v)
    ensures forall u :: u in Teams(es) ==> |Component(es, u)| <= |LargestComponent(es).value|
  {
    var cs := Components(es);
    var nodes := NodeOrder(es);
    var k := FirstLargest(cs);
    v := YieldedAreComponents(es, nodes, {}, k);
    forall u | u in Teams(es) ensures |Component(es, u)| <= |cs[k]| {
      var i := YieldedCoverNodes(es, nodes, {}, u);
      var n := YieldedAreComponents(es, nodes, {}, i);
      SameComponent(es, n, u);
    }
  }

  /** `final_comparisons` keeps every filtered comparison that touches the
      component, and the component's teams are exactly the teams it names. */
  lemma RestrictToComponent(es: seq<Comparison>, v: nat)
    requires v in Teams(es)
    ensures forall c :: c in es && (c.winner in Component(es, v) || c.loser in Component(es, v))
              ==> c in Restrict(es, Component(es, v))
    ensures Teams(Restrict(es, Component(es, v))) == Component(es, v)
  {
    var comp := Component(es, v);
    var fin := Restrict(es, comp);
    forall c | c in es ensures c.winner in comp <==> c.loser in comp {
      ComponentClosed(es, v, c);
    }
    forall t ensures t in Teams(fin) <==> t in comp {
      TeamsAreEndpoints(fin, t);
      TeamsAreEndpoints(es, t);
    }
  }

  /** The same for the component the pipeline keeps: `final_comparisons`
      names exactly the teams of the largest component, which is a
      non-empty set of filtered teams. */
  lemma FinalTeamsAreLargestComponent(es: seq<Comparison>)
    requires LargestComponent(es).Some?
    ensures LargestComponent(es).value != {} && LargestComponent(es).value <= Teams(es)
    ensures Teams(Restrict(es, LargestComponent(es).value)) == LargestComponent(es).value
  {
    var v := LargestComponentIsMaximal(es);
    RestrictToComponent(es, v);
  }
}
