/** Enricher dependency validation: missing references, cycles, declared order (ordering.ts). */
module EnricherOrder {
  import opened Wrappers

  datatype EnricherRef = EnricherRef(name: string, dependsOn: seq<string>)

  datatype OrderError =
    | MissingRef(name: string, dependency: string)
    | CycleFound(cycle: seq<string>)
    | OutOfOrder(name: string, dependency: string)

  datatype Mark = Unvisited | InProgress | Done

  type Graph = map<string, seq<string>>

  // ----- graphs and cycles -----

  predicate Edge(g: Graph, a: string, b: string) {
    a in g && b in g[a]
  }

  ghost predicate IsPath(g: Graph, p: seq<string>) {
    forall i :: 0 <= i < |p| - 1 ==> Edge(g, p[i], p[i + 1])
  }

  /** A genuine cycle: it follows edges and returns to where it started. */
  ghost predicate IsCycle(g: Graph, c: seq<string>) {
    |c| >= 2 && c[0] == c[|c| - 1] && IsPath(g, c)
  }

  ghost predicate Cyclic(g: Graph) {
    exists c :: IsCycle(g, c)
  }

  /** Every edge leads to a smaller rank. */
  ghost predicate Descends(g: Graph, rank: map<string, int>) {
    forall a, b :: Edge(g, a, b) ==> a in rank && b in rank && rank[b] < rank[a]
  }

  lemma {:induction false} PathDescends(g: Graph, rank: map<string, int>, p: seq<string>)
    requires Descends(g, rank) && IsPath(g, p) && |p| >= 2
    ensures p[0] in rank && p[|p| - 1] in rank && rank[p[|p| - 1]] < rank[p[0]]
  {
    assert Edge(g, p[0], p[1]);
    if |p| > 2 {
      var rest := p[1..];
      forall i | 0 <= i < |rest| - 1 ensures Edge(g, rest[i], rest[i + 1]) {
        assert Edge(g, p[i + 1], p[i + 2]);
      }
      PathDescends(g, rank, rest);
    }
  }

  lemma DescentIsAcyclic(g: Graph, rank: map<string, int>)
    requires Descends(g, rank)
    ensures !Cyclic(g)
  {
    forall c ensures !IsCycle(g, c) {
      if |c| >= 2 && IsPath(g, c) {
        PathDescends(g, rank, c);
      }
    }
  }

  // ----- the depth-first search -----

  ghost predicate ClosedGraph(g: Graph) {
    forall a, b :: Edge(g, a, b) ==> b in g
  }

  /** Each node's dependencies finish before it does. */
  ghost predicate Finished(g: Graph, order: seq<string>) {
    && (forall i :: 0 <= i < |order| ==> order[i] in g)
    && (forall i, b :: 0 <= i < |order| && Edge(g, order[i], b) ==> b in order[..i])
  }

  lemma FinishedGrows(g: Graph, order: seq<string>, node: string)
    requires Finished(g, order) && node in g
    requires forall b :: Edge(g, node, b) ==> b in order
    ensures Finished(g, order + [node])
  {
    var grown := order + [node];
    forall i, b | 0 <= i < |grown| && Edge(g, grown[i], b) ensures b in grown[..i] {
      if i < |order| {
        assert order[i] == grown[i] && grown[..i] == order[..i];
      } else {
        assert grown[..i] == order;
      }
    }
  }

  class Search {
    const deps: Graph
    var state: map<string, Mark>
    ghost var order: seq<string>

    constructor (g: Graph)
      requires ClosedGraph(g)
      ensures deps == g && Valid([]) && order == []
    {
      deps := g;
      state := map k | k in g :: Unvisited;
      order := [];
    }

    /** The nodes in progress are exactly the nodes of the path being explored, and the nodes done
        are exactly those in finishing order. */
    ghost predicate Valid(path: seq<string>)
      reads this
    {
      && ClosedGraph(deps) && state.Keys == deps.Keys
      && (forall k :: k in state ==> (state[k] == InProgress <==> k in path))
      && (forall k :: k in path ==> k in state)
      && (forall k :: k in state ==> (state[k] == Done <==> k in order))
      && IsPath(deps, path) && Finished(deps, order)
    }

    ghost function Left(): set<string>
      reads this
    {
      set k | k in state && state[k] == Unvisited
    }

    method Visit(node: string, path: seq<string>) returns (cycle: Option<seq<string>>)
      requires Valid(path) && node in deps
      requires |path| > 0 ==> Edge(deps, path[|path| - 1], node)
      modifies this
      ensures cycle.Some? ==> IsCycle(deps, cycle.value)
      ensures cycle.None? ==> Valid(path) && node in order && old(order) <= order
      ensures Left() <= old(Left())
      decreases Left()
    {
      hide IsPath, IsCycle, Finished;
      if state[node] == Done {
        return None;
      }
      if state[node] == InProgress {
        var cycleStart := IndexIn(path, node);
        ClosesCycle(deps, path, node, cycleStart);
        return Some(path[cycleStart..] + [node]);
      }
      Enter(node, path);
      ghost var left := Left();
      hide Valid, Left;
      var nodeDeps := deps[node];
      var longer := path + [node];
      var i := 0;
      while i < |nodeDeps|
        invariant 0 <= i <= |nodeDeps|
        invariant Valid(longer) && old(order) <= order
        invariant Left() <= left
        invariant forall k :: 0 <= k < i ==> nodeDeps[k] in order
      {
        assert Edge(deps, node, nodeDeps[i]);
        cycle := Visit(nodeDeps[i], longer);
        if cycle.Some? {
          return;
        }
        i := i + 1;
      }
      Finish(node, path);
      cycle := None;
    }

    method Enter(node: string, path: seq<string>)
      requires Valid(path) && node in deps && state[node] == Unvisited
      requires |path| > 0 ==> Edge(deps, path[|path| - 1], node)
      modifies this
      ensures Valid(path + [node]) && order == old(order) && node !in path
      ensures Left() == old(Left()) - {node} && node in old(Left())
    {
      state := state[node := InProgress];
      var longer := path + [node];
      forall i | 0 <= i < |longer| - 1 ensures Edge(deps, longer[i], longer[i + 1]) {
        assert i < |path| - 1 ==> Edge(deps, path[i], path[i + 1]);
      }
    }

    method Finish(node: string, path: seq<string>)
      requires Valid(path + [node]) && node !in path
      requires forall b :: Edge(deps, node, b) ==> b in order
      modifies this
      ensures Valid(path) && order == old(order) + [node] && Left() <= old(Left())
    {
      assert node in path + [node] && state[node] == InProgress;
      state := state[node := Done];
      order := order + [node];
      FinishedGrows(deps, old(order), node);
      forall i | 0 <= i < |path| - 1 ensures Edge(deps, path[i], path[i + 1]) {
        assert Edge(deps, (path + [node])[i], (path + [node])[i + 1]);
      }
    }
  }

  method IndexIn(path: seq<string>, node: string) returns (i: nat)
    requires node in path
    ensures i < |path| && path[i] == node && node !in path[..i]
  {
    i := 0;
    while path[i] != node
      invariant 0 <= i < |path| && node !in path[..i] && node in path[i..]
      decreases |path| - i
    {
      i := i + 1;
    }
  }

  lemma ClosesCycle(g: Graph, path: seq<string>, node: string, start: nat)
    requires IsPath(g, path) && start < |path| && path[start] == node && Edge(g, path[|path| - 1], node)
    ensures IsCycle(g, path[start..] + [node])
  {
  }

  function FirstIn(s: seq<string>, x: string): (i: nat)
    requires x in s
    ensures i < |s| && s[i] == x && forall j :: 0 <= j < i ==> s[j] != x
  {
    if s[0] == x then 0 else 1 + FirstIn(s[1..], x)
  }

  /** A finishing order that covers the graph leaves no room for a cycle. */
  lemma FinishedIsAcyclic(g: Graph, order: seq<string>)
    requires Finished(g, order) && forall k :: k in g ==> k in order
    ensures !Cyclic(g)
  {
    var rank := map k | k in order :: FirstIn(order, k);
    forall a, b | Edge(g, a, b) ensures a in rank && b in rank && rank[b] < rank[a] {
      var i := FirstIn(order, a);
      assert b in order[..i];
      var j :| 0 <= j < i && order[..i][j] == b;
      assert order[j] == b;
    }
    DescentIsAcyclic(g, rank);
  }

  // ----- the validator -----

  predicate Lists(refs: seq<EnricherRef>, name: string) {
    exists i :: 0 <= i < |refs| && refs[i].name == name
  }

  /** The dependency lists by name; when a name is listed twice the later entry stands. */
  function GraphOf(refs: seq<EnricherRef>): Graph {
    if |refs| == 0 then map[]
    else GraphOf(refs[..|refs| - 1])[refs[|refs| - 1].name := refs[|refs| - 1].dependsOn]
  }

  /** The position of each name; when a name is listed twice the later position stands. */
  function Positions(refs: seq<EnricherRef>): map<string, int> {
    if |refs| == 0 then map[] else Positions(refs[..|refs| - 1])[refs[|refs| - 1].name := |refs| - 1]
  }

  /** Reference `i` depends on `dep`. */
  predicate DependsOn(refs: seq<EnricherRef>, i: int, dep: string) {
    0 <= i < |refs| && dep in refs[i].dependsOn
  }

  ghost predicate AllListed(refs: seq<EnricherRef>) {
    forall i, dep :: DependsOn(refs, i, dep) ==> Lists(refs, dep)
  }

  /** The declared order respects every dependency. */
  ghost predicate InOrder(refs: seq<EnricherRef>) {
    forall i, dep :: DependsOn(refs, i, dep) ==> InOrderAt(refs, i, dep)
  }

  predicate InOrderAt(refs: seq<EnricherRef>, i: int, dep: string) {
    var positions := Positions(refs);
    0 <= i < |refs| && dep in positions && refs[i].name in positions && positions[dep] < positions[refs[i].name]
  }

  lemma {:induction false} PositionsSpec(refs: seq<EnricherRef>, name: string)
    ensures name in Positions(refs) <==> Lists(refs, name)
    ensures name in GraphOf(refs) <==> Lists(refs, name)
    ensures name in Positions(refs) ==>
      && 0 <= Positions(refs)[name] < |refs| && refs[Positions(refs)[name]].name == name
      && GraphOf(refs)[name] == refs[Positions(refs)[name]].dependsOn
      && forall i :: Positions(refs)[name] < i < |refs| ==> refs[i].name != name
  {
    if |refs| > 0 {
      var n := |refs| - 1;
      PositionsSpec(refs[..n], name);
      if i :| 0 <= i < |refs| && refs[i].name == name {
        assert i < n ==> refs[..n][i].name == name;
      }
      if i :| 0 <= i < n && refs[..n][i].name == name {
        assert refs[i].name == name;
      }
      if name in Positions(refs[..n]) && refs[n].name != name {
        forall i | Positions(refs)[name] < i < |refs| ensures refs[i].name != name {
          assert i < n ==> refs[..n][i] == refs[i];
        }
      }
    }
  }

  lemma EdgesAreDependencies(refs: seq<EnricherRef>, a: string, b: string)
    requires Edge(GraphOf(refs), a, b)
    ensures a in Positions(refs) && DependsOn(refs, Positions(refs)[a], b) && refs[Positions(refs)[a]].name == a
  {
  }

  lemma GraphIsClosed(refs: seq<EnricherRef>)
    requires AllListed(refs)
    ensures ClosedGraph(GraphOf(refs))
  {
    forall a, b | Edge(GraphOf(refs), a, b) ensures b in GraphOf(refs) {
      EdgesAreDependencies(refs, a, b);
      PositionsSpec(refs, b);
    }
  }

  /** A respected declared order already rules out cycles. */
  lemma InOrderIsAcyclic(refs: seq<EnricherRef>)
    requires InOrder(refs)
    ensures AllListed(refs) && !Cyclic(GraphOf(refs))
  {
    forall i, dep | DependsOn(refs, i, dep) ensures Lists(refs, dep) {
      assert InOrderAt(refs, i, dep);
      PositionsSpec(refs, dep);
    }
    forall a, b | Edge(GraphOf(refs), a, b)
      ensures a in Positions(refs) && b in Positions(refs) && Positions(refs)[b] < Positions(refs)[a]
    {
      EdgesAreDependencies(refs, a, b);
      assert InOrderAt(refs, Positions(refs)[a], b);
    }
    DescentIsAcyclic(GraphOf(refs), Positions(refs));
  }

  ghost predicate DistinctRefs(refs: seq<EnricherRef>) {
    forall i, j :: 0 <= i < j < |refs| ==> refs[i].name != refs[j].name
  }

  /** For distinct references the order condition reads: every dependency is listed strictly earlier. */
  lemma InOrderMeansEarlier(refs: seq<EnricherRef>)
    requires DistinctRefs(refs)
    ensures InOrder(refs) <==> forall i, dep :: DependsOn(refs, i, dep) ==> Lists(refs[..i], dep)
  {
    forall i, dep | DependsOn(refs, i, dep) ensures InOrderAt(refs, i, dep) <==> Lists(refs[..i], dep) {
      PositionsSpec(refs, dep);
      PositionsSpec(refs, refs[i].name);
      assert Lists(refs, refs[i].name);
      assert Positions(refs)[refs[i].name] == i;
      if InOrderAt(refs, i, dep) {
        assert refs[..i][Positions(refs)[dep]].name == dep;
      }
      if k :| 0 <= k < |refs[..i]| && refs[..i][k].name == dep {
        assert refs[k].name == dep;
      }
    }
  }

  /** The first dependency, reference by reference, that is not listed. */
  ghost predicate FirstMissing(refs: seq<EnricherRef>, name: string, dep: string) {
    exists i, j :: 0 <= i < |refs| && 0 <= j < |refs[i].dependsOn| && refs[i].dependsOn[j] == dep
      && refs[i].name == name && !Lists(refs, dep)
      && (forall k, d :: 0 <= k < i && DependsOn(refs, k, d) ==> Lists(refs, d))
      && (forall m :: 0 <= m < j ==> Lists(refs, refs[i].dependsOn[m]))
  }

  /** The first dependency, reference by reference, that is not listed earlier. */
  ghost predicate FirstMisplaced(refs: seq<EnricherRef>, name: string, dep: string) {
    exists i, j :: 0 <= i < |refs| && 0 <= j < |refs[i].dependsOn| && refs[i].dependsOn[j] == dep
      && refs[i].name == name && !InOrderAt(refs, i, dep)
      && (forall k, d :: 0 <= k < i && DependsOn(refs, k, d) ==> InOrderAt(refs, k, d))
      && (forall m :: 0 <= m < j ==> InOrderAt(refs, i, refs[i].dependsOn[m]))
  }

  /** The reported error is really there, and none that comes before it in the validator is. */
  ghost predicate Genuine(refs: seq<EnricherRef>, e: OrderError) {
    match e
    case MissingRef(name, dep) => FirstMissing(refs, name, dep)
    case CycleFound(c) => AllListed(refs) && IsCycle(GraphOf(refs), c)
    case OutOfOrder(name, dep) => AllListed(refs) && !Cyclic(GraphOf(refs)) && FirstMisplaced(refs, name, dep)
  }

  /** The whole validator. It accepts exactly the lists whose every dependency is listed at an
      earlier position; otherwise it reports, in this order of preference, a dependency that is not
      listed, a genuine cycle, or a dependency out of order. */
  method ValidateEnricherOrder(refs: seq<EnricherRef>) returns (r: Option<OrderError>)
    ensures r.None? <==> InOrder(refs)
    ensures r.Some? ==> Genuine(refs, r.value)
    ensures (r.Some? && r.value.CycleFound?) <==> AllListed(refs) && Cyclic(GraphOf(refs))
  {
    var missing := FindMissing(refs);
    if missing.Some? {
      InOrderOnlyIfListed(refs);
      return missing;
    }
    GraphIsClosed(refs);
    var deps: Graph := map[];
    for i := 0 to |refs|
      invariant deps == GraphOf(refs[..i])
    {
      assert refs[..i + 1][..i] == refs[..i];
      deps := deps[refs[i].name := refs[i].dependsOn];
    }
    assert refs[..|refs|] == refs;
    var cycle := FindCycle(deps, refs);
    if cycle.Some? {
      InOrderOnlyIfListed(refs);
      return Some(CycleFound(cycle.value));
    }
    r := FindOutOfOrder(refs);
  }

  lemma InOrderOnlyIfListed(refs: seq<EnricherRef>)
    ensures InOrder(refs) ==> AllListed(refs) && !Cyclic(GraphOf(refs))
  {
    if InOrder(refs) {
      InOrderIsAcyclic(refs);
    }
  }

  method FindMissing(refs: seq<EnricherRef>) returns (r: Option<OrderError>)
    ensures r.None? ==> AllListed(refs)
    ensures r.Some? ==> !AllListed(refs) && r.value.MissingRef? && FirstMissing(refs, r.value.name, r.value.dependency)
  {
    var refSet := set x | x in refs :: x.name;
    for i := 0 to |refs|
      invariant forall k, dep :: 0 <= k < i && DependsOn(refs, k, dep) ==> Lists(refs, dep)
    {
      var ref := refs[i];
      for j := 0 to |ref.dependsOn|
        invariant forall k :: 0 <= k < j ==> Lists(refs, ref.dependsOn[k])
      {
        var dep := ref.dependsOn[j];
        if dep !in refSet {
          assert DependsOn(refs, i, dep);
          assert !Lists(refs, dep) by {
            forall k | 0 <= k < |refs| ensures refs[k].name != dep {
              assert refs[k] in refs;
            }
          }
          return Some(MissingRef(ref.name, dep));
        }
        ghost var x :| x in refs && x.name == dep;
        ghost var k :| 0 <= k < |refs| && refs[k] == x;
        assert Lists(refs, dep);
      }
    }
    r := None;
  }

  lemma SearchFinished(search: Search)
    requires search.Valid([])
    ensures Finished(search.deps, search.order)
  {
  }

  method FindCycle(deps: Graph, refs: seq<EnricherRef>) returns (cycle: Option<seq<string>>)
    requires deps == GraphOf(refs) && ClosedGraph(deps)
    ensures cycle.Some? <==> Cyclic(deps)
    ensures cycle.Some? ==> IsCycle(deps, cycle.value)
  {
    hide Search.Valid, GraphOf, Positions, IsCycle, Finished;
    var search := new Search(deps);
    for i := 0 to |refs|
      invariant search.deps == deps && search.Valid([])
      invariant forall k :: 0 <= k < i ==> refs[k].name in search.order
    {
      PositionsSpec(refs, refs[i].name);
      assert Lists(refs, refs[i].name);
      cycle := search.Visit(refs[i].name, []);
      if cycle.Some? {
        return;
      }
    }
    forall k | k in deps ensures k in search.order {
      PositionsSpec(refs, k);
    }
    SearchFinished(search);
    FinishedIsAcyclic(deps, search.order);
    cycle := None;
  }

  method FindOutOfOrder(refs: seq<EnricherRef>) returns (r: Option<OrderError>)
    requires AllListed(refs)
    ensures r.None? <==> InOrder(refs)
    ensures r.Some? ==> r.value.OutOfOrder? && FirstMisplaced(refs, r.value.name, r.value.dependency)
  {
    var positionOf: map<string, int> := map[];
    for i := 0 to |refs|
      invariant positionOf == Positions(refs[..i])
    {
      assert refs[..i + 1][..i] == refs[..i];
      positionOf := positionOf[refs[i].name := i];
    }
    assert refs[..|refs|] == refs;
    for i := 0 to |refs|
      invariant forall k, dep :: 0 <= k < i && DependsOn(refs, k, dep) ==> InOrderAt(refs, k, dep)
    {
      var ref := refs[i];
      PositionsSpec(refs, ref.name);
      assert Lists(refs, ref.name);
      for j := 0 to |ref.dependsOn|
        invariant forall k :: 0 <= k < j ==> InOrderAt(refs, i, ref.dependsOn[k])
      {
        var dep := ref.dependsOn[j];
        assert DependsOn(refs, i, dep);
        PositionsSpec(refs, dep);
        if positionOf[dep] >= positionOf[ref.name] {
          return Some(OutOfOrder(ref.name, dep));
        }
      }
    }
    r := None;
  }
}
