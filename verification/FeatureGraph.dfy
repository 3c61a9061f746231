/** The acyclic feature graph: Kahn's algorithm with a ready queue that is kept sorted. */
module FeatureGraph {
  import opened Ordering

  datatype Node = Node(id: string, dependsOn: seq<string>)

  datatype GraphError =
    | EmptyNodes
    | DuplicateNodeId(id: string)
    | DanglingDependency(id: string, dep: string)
    | CycleDetected(unresolved: seq<string>)

  datatype Result = Ok(order: seq<string>) | Err(error: GraphError)

  /** Who depends on whom: each id with the set of ids it depends on. */
  type Relation = map<string, set<string>>

  // ---------------------------------------------------------------- what the order means

  ghost predicate IsTopological(g: Relation, order: seq<string>) {
    && NoDuplicates(order)
    && Elements(order) == g.Keys
    && forall i :: 0 <= i < |order| && order[i] in g ==> g[order[i]] <= Elements(order[..i])
  }

  predicate LexLe(p: seq<string>, q: seq<string>) {
    p == [] || (q != [] && (Less(p[0], q[0]) || (p[0] == q[0] && LexLe(p[1..], q[1..]))))
  }

  /** A chain of ids, each depending directly on the next. */
  ghost predicate Walk(g: Relation, p: seq<string>) {
    && p != []
    && (forall i :: 0 <= i < |p| ==> p[i] in g)
    && (forall i {:trigger g[p[i]]} :: 0 <= i < |p| - 1 ==> p[i + 1] in g[p[i]])
  }

  ghost predicate OnCycle(g: Relation, v: string) {
    exists p :: Walk(g, p) && |p| >= 2 && p[0] == v == p[|p| - 1]
  }

  ghost predicate DependsOnCycle(g: Relation, v: string) {
    exists p :: Walk(g, p) && p[0] == v && OnCycle(g, p[|p| - 1])
  }

  // ---------------------------------------------------------------- the node list as a relation

  function IdsOf(nodes: seq<Node>): (ids: seq<string>)
    ensures |ids| == |nodes| && forall i :: 0 <= i < |ids| ==> ids[i] == nodes[i].id
  {
    seq(|nodes|, i requires 0 <= i < |nodes| => nodes[i].id)
  }

  function DepLists(nodes: seq<Node>): map<string, seq<string>> {
    if nodes == [] then map[]
    else DepLists(nodes[..|nodes| - 1])[nodes[|nodes| - 1].id := nodes[|nodes| - 1].dependsOn]
  }

  ghost function Closure(deps: map<string, seq<string>>): Relation {
    map v | v in deps :: Elements(deps[v])
  }

  ghost function RelationOf(nodes: seq<Node>): Relation {
    Closure(DepLists(nodes))
  }

  ghost predicate UniqueIds(nodes: seq<Node>) {
    NoDuplicates(IdsOf(nodes))
  }

  ghost predicate Dangles(nodes: seq<Node>, n: Node, dep: string) {
    n in nodes && dep in n.dependsOn && dep !in IdsOf(nodes)
  }

  ghost predicate WellFormed(nodes: seq<Node>) {
    nodes != [] && UniqueIds(nodes) && forall n, dep :: !Dangles(nodes, n, dep)
  }

  // ---------------------------------------------------------------- least order

  /** `v` is not taken yet and everything it depends on is. */
  ghost predicate Ready(g: Relation, taken: seq<string>, v: string) {
    v in g && v !in taken && g[v] <= Elements(taken)
  }

  /** Every entry is the least id that was ready when it was taken. */
  ghost predicate Greedy(g: Relation, order: seq<string>) {
    forall k, v :: 0 <= k < |order| && Ready(g, order[..k], v) ==> !Less(v, order[k])
  }

  lemma {:induction false} GreedyIsLeast(g: Relation, order: seq<string>, p: seq<string>, k: nat)
    requires IsTopological(g, order) && Greedy(g, order) && IsTopological(g, p)
    requires k <= |order| == |p| && order[..k] == p[..k]
    ensures LexLe(order[k..], p[k..])
    decreases |order| - k
  {
    if k < |order| {
      assert !Less(p[k], order[k]) by {
        assert p[k] in Elements(p);
        assert Ready(g, p[..k], p[k]);
      }
      var x, y := order[k..], p[k..];
      assert x[0] == order[k] && y[0] == p[k];
      assert x[1..] == order[k + 1..] && y[1..] == p[k + 1..];
      if p[k] == order[k] {
        assert order[..k + 1] == order[..k] + [order[k]] && p[..k + 1] == p[..k] + [p[k]];
        GreedyIsLeast(g, order, p, k + 1);
      } else {
        LessTotal(p[k], order[k]);
      }
    }
  }

  lemma {:induction false} LexLeAntisymmetric(p: seq<string>, q: seq<string>)
    requires LexLe(p, q) && LexLe(q, p)
    ensures p == q
  {
    if p != [] {
      LessIsStrictTotalOrder();
      LexLeAntisymmetric(p[1..], q[1..]);
      assert p == [p[0]] + p[1..] && q == [q[0]] + q[1..];
    }
  }

  // ---------------------------------------------------------------- cycles

  /** What is already ordered, with dependencies before dependents, is never on or above a cycle. */
  lemma {:induction false} WalkStaysOrdered(g: Relation, order: seq<string>, p: seq<string>, i: nat)
    requires forall k :: 0 <= k < |order| ==> order[k] in g && g[order[k]] <= Elements(order[..k])
    requires Walk(g, p) && i < |order| && p[0] == order[i]
    ensures p[|p| - 1] in order[..i + 1]
    ensures |p| >= 2 ==> p[|p| - 1] in order[..i]
    decreases |p|
  {
    if |p| >= 2 {
      var rest := p[1..];
      assert rest[0] in g[p[0]];
      var k :| 0 <= k < i && order[k] == rest[0];
      WalkStaysOrdered(g, order, rest, k);
      assert order[..k + 1] <= order[..i];
    }
  }

  lemma OrderedIsAcyclic(g: Relation, order: seq<string>, v: string)
    requires NoDuplicates(order)
    requires forall k :: 0 <= k < |order| ==> order[k] in g && g[order[k]] <= Elements(order[..k])
    requires v in order
    ensures !DependsOnCycle(g, v)
  {
    if DependsOnCycle(g, v) {
      var p :| Walk(g, p) && p[0] == v && OnCycle(g, p[|p| - 1]);
      var c := p[|p| - 1];
      var q :| Walk(g, q) && |q| >= 2 && q[0] == c == q[|q| - 1];
      var i :| 0 <= i < |order| && order[i] == v;
      WalkStaysOrdered(g, order, p, i);
      var j :| 0 <= j < |order| && order[j] == c;
      WalkStaysOrdered(g, order, q, j);
      assert false;
    }
  }

  /** Among ids that each depend on another of them, one can walk for ever. */
  lemma {:induction false} WalkWithin(g: Relation, stuck: set<string>, v: string, n: nat) returns (p: seq<string>)
    requires stuck <= g.Keys && v in stuck
    requires forall u {:trigger g[u]} :: u in stuck ==> g[u] * stuck != {}
    ensures Walk(g, p) && p[0] == v && |p| == n + 1 && Elements(p) <= stuck
    decreases n
  {
    p := [v];
    if n > 0 {
      var w :| w in g[v] * stuck;
      var rest := WalkWithin(g, stuck, w, n - 1);
      p := [v] + rest;
      assert forall i :: 0 < i < |p| ==> p[i] == rest[i - 1];
    }
  }

  lemma StuckDependsOnCycle(g: Relation, stuck: set<string>, v: string)
    requires stuck <= g.Keys && v in stuck
    requires forall u {:trigger g[u]} :: u in stuck ==> g[u] * stuck != {}
    ensures DependsOnCycle(g, v)
  {
    var p := WalkWithin(g, stuck, v, |stuck|);
    Pigeonhole(p, stuck);
    var i, j :| 0 <= i < j < |p| && p[i] == p[j];
    RepeatMeansCycle(g, p, i, j);
  }

  lemma RepeatMeansCycle(g: Relation, p: seq<string>, i: nat, j: nat)
    requires Walk(g, p) && i < j < |p| && p[i] == p[j]
    ensures DependsOnCycle(g, p[0])
  {
    var loop := p[i..j + 1];
    assert forall k :: 0 <= k < |loop| ==> loop[k] == p[i + k];
    assert Walk(g, loop) && |loop| >= 2 && loop[0] == p[i] && loop[|loop| - 1] == p[j];
    var way := p[..i + 1];
    assert Walk(g, way) && way[0] == p[0] && OnCycle(g, way[|way| - 1]);
  }

  // ---------------------------------------------------------------- counting open dependencies

  /** How many entries of `s`, repeats included, are not yet done. */
  function Open(s: seq<string>, done: set<string>): nat {
    if s == [] then 0 else (if s[0] in done then 0 else 1) + Open(s[1..], done)
  }

  lemma {:induction false} OpenDrops(s: seq<string>, done: set<string>, c: string)
    requires c !in done
    ensures Open(s, done) == Open(s, done + {c}) + multiset(s)[c]
  {
    if s != [] {
      OpenDrops(s[1..], done, c);
      assert s == [s[0]] + s[1..];
    }
  }

  lemma {:induction false} OpenIsZeroIff(s: seq<string>, done: set<string>)
    ensures Open(s, done) == 0 <==> Elements(s) <= done
  {
    if s != [] {
      OpenIsZeroIff(s[1..], done);
      assert s == [s[0]] + s[1..];
      assert Elements(s) == {s[0]} + Elements(s[1..]);
    }
  }

  lemma {:induction false} OpenOfNothing(s: seq<string>)
    ensures Open(s, {}) == |s|
  {
    if s != [] { OpenOfNothing(s[1..]); }
  }

  /** `adjacency[u]` lists `v` once for every time `v` lists `u` as a dependency. */
  ghost predicate Transposes(adjacency: map<string, seq<string>>, deps: map<string, seq<string>>) {
    && adjacency.Keys == deps.Keys
    && (forall u, v :: u in deps && v in deps ==> multiset(adjacency[u])[v] == multiset(deps[v])[u])
    && (forall u, v :: u in deps && v in adjacency[u] ==> v in deps)
  }

  ghost predicate Closed(deps: map<string, seq<string>>) {
    forall v :: v in deps ==> Elements(deps[v]) <= deps.Keys
  }

  ghost predicate DegreesMatch(inDegree: map<string, int>, deps: map<string, seq<string>>, done: set<string>) {
    inDegree.Keys == deps.Keys && forall v :: v in deps ==> inDegree[v] == Open(deps[v], done)
  }

  /** The ids that wait for nothing and have not been taken. */
  ghost predicate HoldsReady(queue: seq<string>, inDegree: map<string, int>, done: set<string>) {
    && NoDuplicates(queue)
    && forall v :: v in queue <==> v in inDegree && v !in done && inDegree[v] == 0
  }

  /** The dependency-first prefix that has been taken so far. */
  ghost predicate Prefix(ordered: seq<string>, deps: map<string, seq<string>>) {
    && NoDuplicates(ordered)
    && Elements(ordered) <= deps.Keys
    && (forall k :: 0 <= k < |ordered| && ordered[k] in deps ==> Elements(deps[ordered[k]]) <= Elements(ordered[..k]))
    && Greedy(Closure(deps), ordered)
  }

  function Identity(s: string): string { s }

  method SortIds(s: seq<string>) returns (t: seq<string>)
    ensures multiset(t) == multiset(s) && |t| == |s|
    ensures forall x :: x in t <==> x in s
    ensures NoDuplicates(s) ==> NoDuplicates(t)
    ensures forall i, j :: 0 <= i < j < |t| ==> !Less(t[j], t[i])
  {
    LessIsStrictTotalOrder();
    SortPermutes(Identity, Less, s);
    SortSorts(Identity, Less, s);
    t := Sort(Identity, Less, s);
    assert forall i, j :: 0 <= i < j < |t| ==> !Less(Identity(t[j]), Identity(t[i]));
    if NoDuplicates(s) { PermutationKeepsDistinct(s, t); }
  }

  lemma PermutationKeepsDistinct(s: seq<string>, t: seq<string>)
    requires multiset(s) == multiset(t) && NoDuplicates(s)
    ensures NoDuplicates(t)
  {
    forall i, j | 0 <= i < j < |t| ensures t[i] != t[j] {
      if t[i] == t[j] {
        assert t == t[..i] + [t[i]] + t[i + 1..j] + [t[j]] + t[j + 1..];
        assert multiset(t)[t[i]] >= 2;
        DistinctCounts(s, t[i]);
      }
    }
  }

  lemma {:induction false} DistinctCounts(s: seq<string>, x: string)
    requires NoDuplicates(s)
    ensures multiset(s)[x] <= 1
  {
    if s != [] {
      DistinctCounts(s[1..], x);
      assert s == [s[0]] + s[1..];
      if s[0] == x { assert x !in s[1..]; }
    }
  }

  // ---------------------------------------------------------------- the algorithm

  /** First pass: every id once, with nothing pending and nobody after it. */
  method RegisterIds(ids: seq<string>)
    returns (repeated: nat, inDegree: map<string, int>, adjacency: map<string, seq<string>>)
    ensures repeated <= |ids| && NoDuplicates(ids[..repeated])
    ensures repeated < |ids| ==> ids[repeated] in ids[..repeated]
    ensures repeated == |ids| ==> inDegree.Keys == adjacency.Keys == Elements(ids)
    ensures forall v :: v in inDegree ==> inDegree[v] == 0
    ensures forall v :: v in adjacency ==> adjacency[v] == []
  {
    inDegree, adjacency := map[], map[];
    for i := 0 to |ids|
      invariant inDegree.Keys == adjacency.Keys == Elements(ids[..i])
      invariant NoDuplicates(ids[..i])
      invariant forall v :: v in inDegree ==> inDegree[v] == 0
      invariant forall v :: v in adjacency ==> adjacency[v] == []
    {
      if ids[i] in inDegree {
        return i, inDegree, adjacency;
      }
      assert ids[..i + 1] == ids[..i] + [ids[i]];
      inDegree := inDegree[ids[i] := 0];
      adjacency := adjacency[ids[i] := []];
    }
    assert ids[..|ids|] == ids;
    repeated := |ids|;
  }

  /** `id` entered as a successor of each listed dependency, once per listing. */
  ghost function AddSuccessor(
      adjacency: map<string, seq<string>>, id: string, deps: seq<string>): (r: map<string, seq<string>>)
    requires forall d :: d in deps ==> d in adjacency
    ensures r.Keys == adjacency.Keys
  {
    if deps == [] then adjacency
    else
      var before := AddSuccessor(adjacency, id, deps[..|deps| - 1]);
      var last := deps[|deps| - 1];
      before[last := before[last] + [id]]
  }

  lemma {:induction false} AddSuccessorCounts(
      adjacency: map<string, seq<string>>, id: string, deps: seq<string>, u: string, v: string)
    requires u in adjacency && forall d :: d in deps ==> d in adjacency
    ensures multiset(AddSuccessor(adjacency, id, deps)[u])[v] ==
      multiset(adjacency[u])[v] + if v == id then multiset(deps)[u] else 0
  {
    if deps != [] {
      var before := deps[..|deps| - 1];
      AddSuccessorCounts(adjacency, id, before, u, v);
      assert deps == before + [deps[|deps| - 1]];
    }
  }

  /** Second pass, one node: each listed dependency gains `n` as a successor and `n` waits for one more. */
  method AddDependencies(n: Node, inDegree0: map<string, int>, adjacency0: map<string, seq<string>>)
    returns (missing: nat, inDegree: map<string, int>, adjacency: map<string, seq<string>>)
    requires n.id in inDegree0 && inDegree0.Keys == adjacency0.Keys
    ensures missing <= |n.dependsOn|
    ensures forall d :: d in n.dependsOn[..missing] ==> d in adjacency0
    ensures missing < |n.dependsOn| ==> n.dependsOn[missing] !in inDegree0
    ensures missing == |n.dependsOn| ==> forall d :: d in n.dependsOn ==> d in adjacency0
    ensures missing == |n.dependsOn| ==> inDegree == inDegree0[n.id := inDegree0[n.id] + |n.dependsOn|]
    ensures missing == |n.dependsOn| ==> adjacency == AddSuccessor(adjacency0, n.id, n.dependsOn)
  {
    inDegree, adjacency := inDegree0, adjacency0;
    for k := 0 to |n.dependsOn|
      invariant forall d :: d in n.dependsOn[..k] ==> d in adjacency0
      invariant inDegree == inDegree0[n.id := inDegree0[n.id] + k]
      invariant adjacency == AddSuccessor(adjacency0, n.id, n.dependsOn[..k])
    {
      var dep := n.dependsOn[k];
      if dep !in inDegree {
        return k, map[], map[];
      }
      assert n.dependsOn[..k + 1] == n.dependsOn[..k] + [dep];
      assert n.dependsOn[..k + 1][..k] == n.dependsOn[..k];
      adjacency := adjacency[dep := adjacency[dep] + [n.id]];
      inDegree := inDegree[n.id := inDegree[n.id] + 1];
    }
    assert n.dependsOn[..|n.dependsOn|] == n.dependsOn;
    missing := |n.dependsOn|;
  }

  /** The two maps after the nodes with ids `added` have been entered. */
  ghost predicate Entered(
      inDegree: map<string, int>, adjacency: map<string, seq<string>>, deps: map<string, seq<string>>,
      added: set<string>)
  {
    && inDegree.Keys == adjacency.Keys == deps.Keys
    && (forall v :: v in deps ==> inDegree[v] == if v in added then |deps[v]| else 0)
    && (forall u, v :: u in deps ==> multiset(adjacency[u])[v] == Listings(deps, added, u, v))
    && (forall v :: v in added && v in deps ==> Elements(deps[v]) <= deps.Keys)
  }

  ghost function Listings(deps: map<string, seq<string>>, added: set<string>, u: string, v: string): nat {
    if v in added && v in deps then multiset(deps[v])[u] else 0
  }

  lemma EnterNode(
      inDegree: map<string, int>, adjacency: map<string, seq<string>>, deps: map<string, seq<string>>,
      added: set<string>, id: string)
    requires Entered(inDegree, adjacency, deps, added)
    requires id in deps && id !in added && forall d :: d in deps[id] ==> d in adjacency
    ensures Entered(inDegree[id := inDegree[id] + |deps[id]|], AddSuccessor(adjacency, id, deps[id]), deps,
      added + {id})
  {
    var degrees, successors := inDegree[id := inDegree[id] + |deps[id]|], AddSuccessor(adjacency, id, deps[id]);
    forall u, v | u in deps ensures multiset(successors[u])[v] == Listings(deps, added + {id}, u, v) {
      AddSuccessorCounts(adjacency, id, deps[id], u, v);
    }
    forall v | v in deps ensures degrees[v] == if v in added + {id} then |deps[v]| else 0 {
    }
    forall v | v in added + {id} && v in deps ensures Elements(deps[v]) <= deps.Keys {
      if v == id { assert forall d :: d in Elements(deps[id]) ==> d in adjacency.Keys; }
    }
  }

  method IndexNodes(nodes: seq<Node>)
    returns (error: seq<GraphError>, inDegree: map<string, int>, adjacency: map<string, seq<string>>)
    ensures |error| <= 1
    ensures error != [] ==> FirstFault(nodes, error[0])
    ensures error == [] ==> UniqueIds(nodes) && Entered(inDegree, adjacency, DepLists(nodes), DepLists(nodes).Keys)
  {
    var ids, repeated := IdsOf(nodes), 0;
    repeated, inDegree, adjacency := RegisterIds(ids);
    if repeated < |ids| { return [DuplicateNodeId(ids[repeated])], map[], map[]; }
    assert ids[..|ids|] == ids;
    ghost var deps := DepLists(nodes);
    DepListsGives(nodes);
    for i := 0 to |nodes|
      invariant Entered(inDegree, adjacency, deps, Elements(ids[..i]))
    {
      assert nodes[i].id == ids[i] && ids[i] in Elements(ids);
      ElementsOfPrefix(ids, i);
      var missing, inDegree', adjacency' := AddDependencies(nodes[i], inDegree, adjacency);
      if missing < |nodes[i].dependsOn| {
        DanglingIsFault(nodes, i, missing);
        return [DanglingDependency(ids[i], nodes[i].dependsOn[missing])], map[], map[];
      }
      EnterNode(inDegree, adjacency, deps, Elements(ids[..i]), ids[i]);
      inDegree, adjacency := inDegree', adjacency';
    }
    error := [];
  }

  /** The error names the first repeated id, or the first dependency (in reading order) on an id that is not there. */
  ghost predicate FirstFault(nodes: seq<Node>, e: GraphError) {
    var ids := IdsOf(nodes);
    match e
    case DuplicateNodeId(id) =>
      exists j :: 0 <= j < |ids| && ids[j] == id && NoDuplicates(ids[..j]) && id in ids[..j]
    case DanglingDependency(id, dep) =>
      NoDuplicates(ids) && exists j, k :: 0 <= j < |ids| && ids[j] == id && FirstMissing(nodes, j, k, dep)
    case _ => false
  }

  ghost predicate FirstMissing(nodes: seq<Node>, j: int, k: int, dep: string) {
    && 0 <= j < |nodes| && 0 <= k < |nodes[j].dependsOn| && nodes[j].dependsOn[k] == dep
    && dep !in IdsOf(nodes)
    && (forall d :: d in nodes[j].dependsOn[..k] ==> d in IdsOf(nodes))
    && (forall i, d :: 0 <= i < j && d in nodes[i].dependsOn ==> d in IdsOf(nodes))
  }

  lemma {:induction false} DepListsGives(nodes: seq<Node>)
    requires UniqueIds(nodes)
    ensures DepLists(nodes).Keys == Elements(IdsOf(nodes))
    ensures forall i ::
      0 <= i < |nodes| ==> nodes[i].id in DepLists(nodes) && DepLists(nodes)[nodes[i].id] == nodes[i].dependsOn
  {
    if nodes != [] {
      var before, ids := nodes[..|nodes| - 1], IdsOf(nodes);
      assert IdsOf(before) == ids[..|ids| - 1];
      DepListsGives(before);
      ElementsOfPrefix(ids, |ids| - 1);
      assert ids[..|ids|] == ids;
      forall i | 0 <= i < |nodes| - 1
        ensures nodes[i].id in DepLists(nodes) && DepLists(nodes)[nodes[i].id] == nodes[i].dependsOn
      {
        assert before[i] == nodes[i];
        assert ids[i] != ids[|ids| - 1];
      }
    }
  }

  lemma DanglingIsFault(nodes: seq<Node>, i: nat, k: nat)
    requires UniqueIds(nodes) && i < |nodes| && k < |nodes[i].dependsOn|
    requires nodes[i].dependsOn[k] !in DepLists(nodes)
    requires forall d :: d in nodes[i].dependsOn[..k] ==> d in DepLists(nodes)
    requires forall v ::
      v in Elements(IdsOf(nodes)[..i]) && v in DepLists(nodes) ==> Elements(DepLists(nodes)[v]) <= DepLists(nodes).Keys
    ensures FirstFault(nodes, DanglingDependency(nodes[i].id, nodes[i].dependsOn[k]))
  {
    DepListsGives(nodes);
    var ids, dep := IdsOf(nodes), nodes[i].dependsOn[k];
    forall j, d | 0 <= j < i && d in nodes[j].dependsOn ensures d in ids {
      assert ids[j] in ids[..i];
      assert d in Elements(DepLists(nodes)[nodes[j].id]);
    }
    assert forall d :: d in ids <==> d in Elements(ids);
    assert ids[i] == nodes[i].id && FirstMissing(nodes, i, k, dep);
  }

  /** A fault is what makes a node list ill formed. */
  lemma FaultMeansIllFormed(nodes: seq<Node>, e: GraphError)
    requires FirstFault(nodes, e)
    ensures !WellFormed(nodes)
  {
    var ids := IdsOf(nodes);
    if e.DuplicateNodeId? {
      var j :| 0 <= j < |ids| && ids[j] == e.id && NoDuplicates(ids[..j]) && e.id in ids[..j];
      var i :| 0 <= i < j && ids[..j][i] == e.id;
      assert ids[i] == ids[j];
    } else {
      var j, k :| 0 <= j < |ids| && ids[j] == e.id && FirstMissing(nodes, j, k, e.dep);
      assert Dangles(nodes, nodes[j], e.dep);
    }
  }

  lemma EnteredMeansWellFormed(nodes: seq<Node>, inDegree: map<string, int>, adjacency: map<string, seq<string>>)
    requires nodes != [] && UniqueIds(nodes) && Entered(inDegree, adjacency, DepLists(nodes), DepLists(nodes).Keys)
    ensures WellFormed(nodes) && Closed(DepLists(nodes))
    ensures DegreesMatch(inDegree, DepLists(nodes), {}) && Transposes(adjacency, DepLists(nodes))
  {
    var deps := DepLists(nodes);
    DepListsGives(nodes);
    forall n, dep ensures !Dangles(nodes, n, dep) {
      if n in nodes && dep in n.dependsOn {
        assert dep in Elements(deps[n.id]);
        assert dep in Elements(IdsOf(nodes));
      }
    }
    forall v | v in deps { OpenOfNothing(deps[v]); }
    forall u, v | u in deps && v in adjacency[u] ensures v in deps {
      assert multiset(adjacency[u])[v] > 0;
    }
  }

  /** The degrees while the successors in `rest` still have to lose one open dependency per listing. */
  ghost predicate Releasing(
      inDegree: map<string, int>, queue: seq<string>, rest: seq<string>, deps: map<string, seq<string>>,
      done: set<string>)
  {
    && inDegree.Keys == deps.Keys
    && (forall v :: v in rest ==> v in deps)
    && (forall v :: v in deps ==> inDegree[v] == Open(deps[v], done) + multiset(rest)[v])
    && (forall v :: v in done && v in deps ==> inDegree[v] == 0)
    && HoldsReady(queue, inDegree, done)
  }

  lemma ReleaseOne(
      inDegree: map<string, int>, queue: seq<string>, neighbor: string, rest: seq<string>,
      deps: map<string, seq<string>>, done: set<string>)
    requires Releasing(inDegree, queue, [neighbor] + rest, deps, done)
    ensures neighbor in inDegree
    ensures Releasing(inDegree[neighbor := inDegree[neighbor] - 1],
                      if inDegree[neighbor] == 1 then queue + [neighbor] else queue, rest, deps, done)
  {
    var all := [neighbor] + rest;
    assert neighbor in all;
    assert multiset(all) == multiset{neighbor} + multiset(rest);
    assert inDegree[neighbor] > 0;
    assert forall v :: v in rest ==> v in all;
    QueueAfterRelease(inDegree, queue, neighbor, done);
    var inDegree' := inDegree[neighbor := inDegree[neighbor] - 1];
    assert inDegree'.Keys == inDegree.Keys;
    forall v | v in deps ensures inDegree'[v] == Open(deps[v], done) + multiset(rest)[v] {
      assert inDegree[v] == Open(deps[v], done) + multiset(all)[v];
    }
  }

  lemma QueueAfterRelease(inDegree: map<string, int>, queue: seq<string>, neighbor: string, done: set<string>)
    requires HoldsReady(queue, inDegree, done)
    requires neighbor in inDegree && inDegree[neighbor] > 0 && neighbor !in done
    ensures HoldsReady(if inDegree[neighbor] == 1 then queue + [neighbor] else queue,
      inDegree[neighbor := inDegree[neighbor] - 1], done)
  {
    assert neighbor !in queue;
  }

  /** One pass over the successors of the id just taken; those left with no open dependency join the queue. */
  method Release(adjacent: seq<string>, inDegree0: map<string, int>, queue0: seq<string>,
                 ghost deps: map<string, seq<string>>, ghost done: set<string>)
    returns (inDegree: map<string, int>, queue: seq<string>)
    requires Releasing(inDegree0, queue0, adjacent, deps, done)
    ensures DegreesMatch(inDegree, deps, done)
    ensures HoldsReady(queue, inDegree, done)
  {
    inDegree, queue := inDegree0, queue0;
    assert adjacent[0..] == adjacent;
    for k := 0 to |adjacent|
      invariant Releasing(inDegree, queue, adjacent[k..], deps, done)
    {
      var neighbor := adjacent[k];
      assert adjacent[k..] == [neighbor] + adjacent[k + 1..];
      ReleaseOne(inDegree, queue, neighbor, adjacent[k + 1..], deps, done);
      inDegree := inDegree[neighbor := inDegree[neighbor] - 1];
      if inDegree[neighbor] == 0 {
        queue := queue + [neighbor];
      }
    }
    assert adjacent[|adjacent|..] == [];
  }

  /** Where the algorithm stands between two rounds of its loop. */
  ghost predicate Standing(
      ordered: seq<string>, queue: seq<string>, inDegree: map<string, int>, deps: map<string, seq<string>>)
  {
    && Prefix(ordered, deps)
    && DegreesMatch(inDegree, deps, Elements(ordered))
    && HoldsReady(queue, inDegree, Elements(ordered))
    && forall i, j :: 0 <= i < j < |queue| ==> !Less(queue[j], queue[i])
  }

  method InitialQueue(ids: seq<string>, inDegree: map<string, int>) returns (queue: seq<string>)
    requires NoDuplicates(ids) && Elements(ids) == inDegree.Keys
    ensures HoldsReady(queue, inDegree, {})
    ensures forall i, j :: 0 <= i < j < |queue| ==> !Less(queue[j], queue[i])
  {
    var start := [];
    assert forall v :: v in ids ==> v in Elements(ids);
    for i := 0 to |ids|
      invariant NoDuplicates(start)
      invariant forall v :: v in start <==> v in ids[..i] && inDegree[v] == 0
    {
      assert ids[..i + 1] == ids[..i] + [ids[i]];
      if inDegree[ids[i]] == 0 {
        start := start + [ids[i]];
      }
    }
    assert ids[..|ids|] == ids;
    queue := SortIds(start);
  }

  /** One round: take the least ready id, release its successors, sort the queue again. */
  method TakeLeast(
      ordered0: seq<string>, queue0: seq<string>, inDegree0: map<string, int>, adjacency: map<string, seq<string>>,
      ghost deps: map<string, seq<string>>)
    returns (ordered: seq<string>, queue: seq<string>, inDegree: map<string, int>)
    requires Transposes(adjacency, deps) && Standing(ordered0, queue0, inDegree0, deps) && queue0 != []
    ensures Standing(ordered, queue, inDegree, deps)
    ensures ordered == ordered0 + [queue0[0]] && queue0[0] !in ordered0 && queue0[0] in deps
  {
    var curr := queue0[0];
    ghost var done := Elements(ordered0);
    TakeKeepsPrefix(ordered0, queue0, inDegree0, deps);
    ordered := ordered0 + [curr];
    TakingReleases(ordered0, queue0, inDegree0, adjacency, deps);
    inDegree, queue := Release(adjacency[curr], inDegree0, queue0[1..], deps, done + {curr});
    queue := SortIds(queue);
    ElementsSnoc(ordered0, curr);
  }

  lemma TakingReleases(
      ordered: seq<string>, queue: seq<string>, inDegree: map<string, int>, adjacency: map<string, seq<string>>,
      deps: map<string, seq<string>>)
    requires Transposes(adjacency, deps) && Standing(ordered, queue, inDegree, deps) && queue != []
    ensures queue[0] in adjacency && queue[0] !in ordered
    ensures Releasing(inDegree, queue[1..], adjacency[queue[0]], deps, Elements(ordered) + {queue[0]})
  {
    var curr, done := queue[0], Elements(ordered);
    TakeKeepsPrefix(ordered, queue, inDegree, deps);
    forall v | v in deps ensures inDegree[v] == Open(deps[v], done + {curr}) + multiset(adjacency[curr])[v] {
      OpenDrops(deps[v], done, curr);
    }
    forall v | v in done + {curr} && v in deps ensures inDegree[v] == 0 {
      assert v in ordered + [curr];
    }
  }

  method Kahn(
      ids: seq<string>, inDegree0: map<string, int>, adjacency: map<string, seq<string>>,
      ghost deps: map<string, seq<string>>)
    returns (ordered: seq<string>, inDegree: map<string, int>)
    requires Transposes(adjacency, deps) && DegreesMatch(inDegree0, deps, {})
    requires NoDuplicates(ids) && Elements(ids) == deps.Keys
    ensures Prefix(ordered, deps)
    ensures DegreesMatch(inDegree, deps, Elements(ordered))
    ensures forall v :: v in deps && v !in ordered ==> inDegree[v] > 0
  {
    inDegree, ordered := inDegree0, [];
    assert Elements(ordered) == {};
    var queue := InitialQueue(ids, inDegree);
    while queue != []
      invariant Standing(ordered, queue, inDegree, deps)
      decreases deps.Keys - Elements(ordered)
    {
      ghost var taken := queue[0];
      ordered, queue, inDegree := TakeLeast(ordered, queue, inDegree, adjacency, deps);
      assert taken in Elements(ordered);
    }
  }

  lemma TakeKeepsPrefix(
      ordered: seq<string>, queue: seq<string>, inDegree: map<string, int>, deps: map<string, seq<string>>)
    requires Prefix(ordered, deps) && DegreesMatch(inDegree, deps, Elements(ordered))
    requires queue != [] && HoldsReady(queue, inDegree, Elements(ordered))
    requires forall i, j :: 0 <= i < j < |queue| ==> !Less(queue[j], queue[i])
    ensures Prefix(ordered + [queue[0]], deps)
    ensures forall v :: v in ordered + [queue[0]] ==> v in inDegree && inDegree[v] == 0
    ensures HoldsReady(queue[1..], inDegree, Elements(ordered) + {queue[0]})
  {
    LessIsStrictTotalOrder();
    var curr, g, done := queue[0], Closure(deps), Elements(ordered);
    var next := ordered + [curr];
    OpenIsZeroIff(deps[curr], done);
    assert forall k :: 0 <= k <= |ordered| ==> next[..k] == ordered[..k];
    assert curr !in ordered;
    forall v | Ready(g, ordered, v) ensures !Less(v, curr) {
      OpenIsZeroIff(deps[v], done);
      assert v in queue;
    }
    forall v | v in ordered ensures inDegree[v] == 0 {
      var k :| 0 <= k < |ordered| && ordered[k] == v;
      OpenIsZeroIff(deps[v], done);
      assert Elements(ordered[..k]) <= done;
    }
    forall v ensures v in queue[1..] <==> v in inDegree && v !in done + {curr} && inDegree[v] == 0 {
      assert queue == [curr] + queue[1..];
    }
  }

  /** What is left when the queue runs dry: nothing, or ids that wait for one another. */
  lemma LeftoversWait(ordered: seq<string>, inDegree: map<string, int>, deps: map<string, seq<string>>, v: string)
    requires Closed(deps) && Prefix(ordered, deps) && DegreesMatch(inDegree, deps, Elements(ordered))
    requires forall u :: u in deps && u !in ordered ==> inDegree[u] > 0
    requires v in deps
    ensures v !in ordered <==> DependsOnCycle(Closure(deps), v)
    ensures v !in ordered <==> inDegree[v] > 0
  {
    var g := Closure(deps);
    OpenIsZeroIff(deps[v], Elements(ordered));
    if v in ordered {
      OrderedIsAcyclic(g, ordered, v);
      var k :| 0 <= k < |ordered| && ordered[k] == v;
      assert Elements(ordered[..k]) <= Elements(ordered);
    } else {
      var stuck := deps.Keys - Elements(ordered);
      forall u | u in stuck ensures g[u] * stuck != {} {
        OpenIsZeroIff(deps[u], Elements(ordered));
        var w :| w in Elements(deps[u]) && w !in Elements(ordered);
        assert w in g[u] * stuck;
      }
      StuckDependsOnCycle(g, stuck, v);
    }
  }

  lemma CyclesAreInside(g: Relation, v: string)
    ensures DependsOnCycle(g, v) ==> v in g
  {
  }

  lemma CycleIffSomeoneDependsOnIt(g: Relation)
    ensures (exists v :: OnCycle(g, v)) <==> (exists v :: DependsOnCycle(g, v))
  {
    if v :| OnCycle(g, v) {
      var p :| Walk(g, p) && |p| >= 2 && p[0] == v == p[|p| - 1];
      assert Walk(g, [v]) && [v][0] == v && OnCycle(g, [v][|[v]| - 1]);
      assert DependsOnCycle(g, v);
    }
  }

  /** The node has its place in the order, and each of its dependencies an earlier one. */
  ghost predicate DepsComeFirst(n: Node, order: seq<string>) {
    exists i :: 0 <= i < |order| && order[i] == n.id && forall dep :: dep in n.dependsOn ==> dep in order[..i]
  }

  /** The relation of a node list has its ids, each with what the node of that id depends on. */
  lemma RelationSays(nodes: seq<Node>, n: Node)
    requires UniqueIds(nodes)
    ensures RelationOf(nodes).Keys == set m | m in nodes :: m.id
    ensures n in nodes ==> RelationOf(nodes)[n.id] == set dep | dep in n.dependsOn
  {
    DepListsGives(nodes);
    var ids := IdsOf(nodes);
    assert forall i :: 0 <= i < |nodes| ==> ids[i] == nodes[i].id && nodes[i] in nodes;
    forall v ensures v in RelationOf(nodes) <==> v in set m | m in nodes :: m.id {
      if v in RelationOf(nodes) {
        var i :| 0 <= i < |ids| && ids[i] == v;
        assert nodes[i] in nodes;
      }
    }
    if n in nodes {
      var i :| 0 <= i < |nodes| && nodes[i] == n;
      assert DepLists(nodes)[n.id] == n.dependsOn;
    }
  }

  lemma TopologicalMeansDepsFirst(nodes: seq<Node>, order: seq<string>)
    requires WellFormed(nodes) && IsTopological(RelationOf(nodes), order)
    ensures |order| == |nodes| && forall n :: n in nodes ==> DepsComeFirst(n, order)
  {
    DepListsGives(nodes);
    NoDuplicatesSize(order);
    NoDuplicatesSize(IdsOf(nodes));
    assert RelationOf(nodes).Keys == DepLists(nodes).Keys;
    forall n | n in nodes ensures DepsComeFirst(n, order) {
      RelationSays(nodes, n);
      assert n.id in Elements(order);
      var i :| 0 <= i < |order| && order[i] == n.id;
      assert RelationOf(nodes)[order[i]] <= Elements(order[..i]);
      assert forall dep :: dep in n.dependsOn ==> dep in RelationOf(nodes)[n.id];
    }
  }

  /** `FeatureGraph.__post_init__`, from the node index to the recorded order. */
  method Compile(nodes: seq<Node>) returns (r: Result)
    ensures r == Err(EmptyNodes) <==> nodes == []
    ensures r.Err? && !r.error.CycleDetected? && nodes != [] <==> nodes != [] && !WellFormed(nodes)
    ensures r.Err? && nodes != [] && !WellFormed(nodes) ==> FirstFault(nodes, r.error)
    ensures r.Err? && r.error.CycleDetected? <==> WellFormed(nodes) && exists v :: OnCycle(RelationOf(nodes), v)
    ensures r.Err? && r.error.CycleDetected? ==>
              && NoDuplicates(r.error.unresolved)
              && (forall i, j ::
                   0 <= i < j < |r.error.unresolved| ==> Less(r.error.unresolved[i], r.error.unresolved[j]))
              && (forall v :: v in r.error.unresolved <==> DependsOnCycle(RelationOf(nodes), v))
    ensures r.Ok? ==> |r.order| == |nodes| && forall n :: n in nodes ==> DepsComeFirst(n, r.order)
    ensures r.Ok? ==> IsTopological(RelationOf(nodes), r.order)
    ensures r.Ok? ==> forall p :: IsTopological(RelationOf(nodes), p) ==> LexLe(r.order, p)
  {
    if nodes == [] { return Err(EmptyNodes); }
    var error, inDegree, adjacency := IndexNodes(nodes);
    if error != [] {
      FaultMeansIllFormed(nodes, error[0]);
      return Err(error[0]);
    }
    EnteredMeansWellFormed(nodes, inDegree, adjacency);
    DepListsGives(nodes);
    var ids := IdsOf(nodes);
    var ordered, left := Kahn(ids, inDegree, adjacency, DepLists(nodes));
    if |ordered| != |nodes| {
      var unresolved := Unresolved(ids, left);
      LeftoversAreTheCycles(nodes, ordered, left, unresolved);
      return Err(CycleDetected(unresolved));
    }
    CompleteIsLeast(nodes, ordered, left);
    TopologicalMeansDepsFirst(nodes, ordered);
    r := Ok(ordered);
  }

  lemma LeftoversAreTheCycles(
      nodes: seq<Node>, ordered: seq<string>, inDegree: map<string, int>, unresolved: seq<string>)
    requires WellFormed(nodes) && Closed(DepLists(nodes)) && Prefix(ordered, DepLists(nodes))
    requires DegreesMatch(inDegree, DepLists(nodes), Elements(ordered))
    requires forall u :: u in DepLists(nodes) && u !in ordered ==> inDegree[u] > 0
    requires forall v :: v in unresolved <==> v in DepLists(nodes) && inDegree[v] > 0
    requires |ordered| != |nodes|
    ensures forall v :: v in unresolved <==> DependsOnCycle(RelationOf(nodes), v)
    ensures exists v :: OnCycle(RelationOf(nodes), v)
  {
    var deps, g := DepLists(nodes), RelationOf(nodes);
    forall v ensures v in unresolved <==> DependsOnCycle(g, v) {
      CyclesAreInside(g, v);
      if v in deps {
        LeftoversWait(ordered, inDegree, deps, v);
      }
    }
    NoDuplicatesSize(ordered);
    DepListsGives(nodes);
    NoDuplicatesSize(IdsOf(nodes));
    assert Elements(ordered) != deps.Keys;
    var v :| v in deps && v !in ordered;
    LeftoversWait(ordered, inDegree, deps, v);
    CycleIffSomeoneDependsOnIt(g);
  }

  lemma CompleteIsLeast(nodes: seq<Node>, ordered: seq<string>, inDegree: map<string, int>)
    requires WellFormed(nodes) && Closed(DepLists(nodes)) && Prefix(ordered, DepLists(nodes))
    requires DegreesMatch(inDegree, DepLists(nodes), Elements(ordered))
    requires forall u :: u in DepLists(nodes) && u !in ordered ==> inDegree[u] > 0
    requires |ordered| == |nodes|
    ensures IsTopological(RelationOf(nodes), ordered)
    ensures forall p :: IsTopological(RelationOf(nodes), p) ==> LexLe(ordered, p)
    ensures forall v :: !OnCycle(RelationOf(nodes), v)
  {
    var deps, g := DepLists(nodes), RelationOf(nodes);
    NoDuplicatesSize(ordered);
    DepListsGives(nodes);
    NoDuplicatesSize(IdsOf(nodes));
    SameSize(Elements(ordered), deps.Keys);
    assert IsTopological(g, ordered);
    forall p | IsTopological(g, p) ensures LexLe(ordered, p) {
      NoDuplicatesSize(p);
      GreedyIsLeast(g, ordered, p, 0);
      assert ordered[0..] == ordered && p[0..] == p;
    }
    forall v ensures !DependsOnCycle(g, v) {
      CyclesAreInside(g, v);
      if v in deps {
        assert v in Elements(ordered);
        LeftoversWait(ordered, inDegree, deps, v);
      }
    }
    CycleIffSomeoneDependsOnIt(g);
  }

  lemma SameSize(a: set<string>, b: set<string>)
    requires a <= b && |a| == |b|
    ensures a == b
  {
    assert b == a + (b - a);
  }

  method Unresolved(ids: seq<string>, inDegree: map<string, int>) returns (unresolved: seq<string>)
    requires NoDuplicates(ids) && forall v :: v in ids ==> v in inDegree
    ensures NoDuplicates(unresolved)
    ensures forall i, j :: 0 <= i < j < |unresolved| ==> Less(unresolved[i], unresolved[j])
    ensures forall v :: v in unresolved <==> v in ids && inDegree[v] > 0
  {
    var waiting := [];
    for i := 0 to |ids|
      invariant NoDuplicates(waiting)
      invariant forall v :: v in waiting <==> v in ids[..i] && inDegree[v] > 0
    {
      assert ids[..i + 1] == ids[..i] + [ids[i]];
      if inDegree[ids[i]] > 0 { waiting := waiting + [ids[i]]; }
    }
    assert ids[..|ids|] == ids;
    LessIsStrictTotalOrder();
    unresolved := SortIds(waiting);
  }

  /** The recorded order depends on the relation alone, not on how the node list or any `depends_on` list is
      arranged. */
  lemma OrderDependsOnlyOnRelation(nodes: seq<Node>, other: seq<Node>, order: seq<string>, order': seq<string>)
    requires RelationOf(nodes) == RelationOf(other)
    requires IsTopological(RelationOf(nodes), order)
    requires forall p :: IsTopological(RelationOf(nodes), p) ==> LexLe(order, p)
    requires IsTopological(RelationOf(other), order')
    requires forall p :: IsTopological(RelationOf(other), p) ==> LexLe(order', p)
    ensures order == order'
  {
    LexLeAntisymmetric(order, order');
  }

  /** Rearranging the node list, or any `depends_on` list with or without repeats, leaves the relation as it was. */
  lemma RearrangingKeepsRelation(nodes: seq<Node>, other: seq<Node>)
    requires UniqueIds(nodes) && UniqueIds(other)
    requires forall n ::
      n in nodes ==> exists m :: m in other && m.id == n.id && Elements(m.dependsOn) == Elements(n.dependsOn)
    requires forall m ::
      m in other ==> exists n :: n in nodes && m.id == n.id && Elements(m.dependsOn) == Elements(n.dependsOn)
    ensures RelationOf(nodes) == RelationOf(other)
  {
    RelationIncludes(nodes, other);
    RelationIncludes(other, nodes);
  }

  lemma RelationIncludes(nodes: seq<Node>, other: seq<Node>)
    requires UniqueIds(nodes) && UniqueIds(other)
    requires forall n ::
      n in nodes ==> exists m :: m in other && m.id == n.id && Elements(m.dependsOn) == Elements(n.dependsOn)
    ensures forall v ::
      v in RelationOf(nodes) ==> v in RelationOf(other) && RelationOf(other)[v] == RelationOf(nodes)[v]
  {
    DepListsGives(nodes);
    DepListsGives(other);
    forall v | v in RelationOf(nodes) ensures v in RelationOf(other) && RelationOf(other)[v] == RelationOf(nodes)[v] {
      assert v in Elements(IdsOf(nodes));
      var i :| 0 <= i < |nodes| && IdsOf(nodes)[i] == v;
      var m :| m in other && m.id == nodes[i].id && Elements(m.dependsOn) == Elements(nodes[i].dependsOn);
    }
  }
}
