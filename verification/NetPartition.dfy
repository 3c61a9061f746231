/** Merging the nets of several sheets: union-find with path halving over shared pin names. */
module NetPartition {

  // ---------------------------------------------------------------- what "on one board net" means

  /** Two pins stand in one net that has at least two entries. */
  ghost predicate ShareNet(nets: seq<seq<string>>, a: string, b: string) {
    exists n :: n in nets && |n| >= 2 && a in n && b in n
  }

  /** A chain of pins, each sharing a net with the next. */
  ghost predicate Chain(nets: seq<seq<string>>, p: seq<string>) {
    p != [] && forall i, j :: 0 <= i < j < |p| && j == i + 1 ==> ShareNet(nets, p[i], p[j])
  }

  ghost predicate Connected(nets: seq<seq<string>>, a: string, b: string) {
    exists p :: Chain(nets, p) && p[0] == a && p[|p| - 1] == b
  }

  /** A pin that union-find gets to see: nets with one entry cause no union, so their pins never enter the forest. */
  ghost predicate IsNode(nets: seq<seq<string>>, a: string) {
    exists n :: n in nets && |n| >= 2 && a in n
  }

  // ---------------------------------------------------------------- pairs that were joined

  datatype Pair = Pair(left: string, right: string)

  /** A lookup that leaves unknown names alone. */
  function Look(m: map<string, string>, x: string): string {
    if x in m then m[x] else x
  }

  ghost predicate StaysInside(m: map<string, string>, x: string) {
    Look(m, x) in m
  }

  ghost predicate Respects(f: string -> bool, pairs: set<Pair>) {
    forall e :: e in pairs ==> f(e.left) == f(e.right)
  }

  /** `root` gives two pins one name exactly when no colouring that respects every joined pair tells them apart. */
  ghost predicate Partitions(root: map<string, string>, pairs: set<Pair>) {
    && (forall x :: x in root <==> Mentions(pairs, x))
    && (forall x {:trigger StaysInside(root, x)} :: x in root ==> StaysInside(root, x))
    && (forall e :: e in pairs ==> Look(root, e.left) == Look(root, e.right))
    && (forall f: string -> bool, x, y {:trigger Respects(f, pairs), Look(root, x), Look(root, y)} ::
          Respects(f, pairs) && Look(root, x) == Look(root, y) ==> f(x) == f(y))
  }

  ghost predicate Mentions(pairs: set<Pair>, x: string) {
    exists e :: e in pairs && (e.left == x || e.right == x)
  }

  /** The root map after `a` and `b` have been joined: `b`'s root takes over `a`'s class. */
  ghost function Joined(root: map<string, string>, a: string, b: string): map<string, string> {
    map x | x in root.Keys + {a, b} :: if Look(root, x) == Look(root, a) then Look(root, b) else Look(root, x)
  }

  lemma JoinMentions(root: map<string, string>, pairs: set<Pair>, a: string, b: string, x: string)
    requires Partitions(root, pairs)
    ensures x in Joined(root, a, b) <==> Mentions(pairs + {Pair(a, b)}, x)
  {
    assert Pair(a, b) in pairs + {Pair(a, b)};
    if Mentions(pairs, x) {
      var e :| e in pairs && (e.left == x || e.right == x);
      assert e in pairs + {Pair(a, b)};
    }
  }

  lemma JoinKeepsColours(
      root: map<string, string>, pairs: set<Pair>, a: string, b: string, f: string -> bool, x: string, y: string)
    requires Partitions(root, pairs) && Respects(f, pairs) && f(a) == f(b)
    requires Look(Joined(root, a, b), x) == Look(Joined(root, a, b), y)
    ensures f(x) == f(y)
  {
    SameColour(root, pairs, f, x, a);
    SameColour(root, pairs, f, y, a);
    SameColour(root, pairs, f, x, b);
    SameColour(root, pairs, f, y, b);
    SameColour(root, pairs, f, x, y);
  }

  lemma JoinPartitions(root: map<string, string>, pairs: set<Pair>, a: string, b: string)
    requires Partitions(root, pairs)
    ensures Partitions(Joined(root, a, b), pairs + {Pair(a, b)})
  {
    var joined, all := Joined(root, a, b), pairs + {Pair(a, b)};
    assert Pair(a, b) in all;
    forall x {:trigger StaysInside(joined, x)} | x in joined ensures StaysInside(joined, x) {
      assert x in root ==> StaysInside(root, x);
      assert b in root ==> StaysInside(root, b);
    }
    forall x { JoinMentions(root, pairs, a, b, x); }
    forall f: string -> bool, x, y | Respects(f, all) && Look(joined, x) == Look(joined, y) ensures f(x) == f(y) {
      assert f(Pair(a, b).left) == f(Pair(a, b).right);
      assert Respects(f, pairs);
      JoinKeepsColours(root, pairs, a, b, f, x, y);
    }
    forall e | e in all ensures Look(joined, e.left) == Look(joined, e.right) {
      if e in pairs {
        assert Look(root, e.left) == Look(root, e.right) && Mentions(pairs, e.left) && Mentions(pairs, e.right);
      }
    }
  }

  lemma SameColour(root: map<string, string>, pairs: set<Pair>, f: string -> bool, x: string, y: string)
    requires Partitions(root, pairs) && Respects(f, pairs)
    ensures Look(root, x) == Look(root, y) ==> f(x) == f(y)
  {
  }

  // ---------------------------------------------------------------- the forest

  /** `n` steps up from `x`. */
  ghost function Climb(parent: map<string, string>, x: string, n: nat): string
    decreases n
  {
    if n == 0 then x else Climb(parent, Look(parent, x), n - 1)
  }

  ghost predicate IsRoot(parent: map<string, string>, x: string) {
    x in parent && Look(parent, x) == x
  }

  ghost predicate EndsInRoot(parent: map<string, string>, x: string) {
    exists n: nat :: IsRoot(parent, Climb(parent, x, n))
  }

  /** Parents are nodes, every way up ends in a root, and only a root is its own ancestor. */
  ghost predicate Forest(parent: map<string, string>) {
    && (forall x {:trigger Look(parent, x)} :: x in parent ==> Look(parent, x) in parent)
    && (forall x {:trigger EndsInRoot(parent, x)} :: x in parent ==> EndsInRoot(parent, x))
    && (forall x, n: nat {:trigger Climb(parent, x, n)} ::
         x in parent && n > 0 && Climb(parent, x, n) == x ==> IsRoot(parent, x))
  }

  /** Ranks that grow on the way up, and names of roots that do not change on the way up. */
  ghost predicate Ranked(parent: map<string, string>, root: map<string, string>, rank: map<string, nat>, top: nat) {
    && root.Keys == parent.Keys == rank.Keys
    && (forall x {:trigger rank[x]} :: x in parent ==> rank[x] <= top)
    && (forall x {:trigger Rises(parent, root, rank, x)} :: x in parent ==> Rises(parent, root, rank, x))
    && (forall x {:trigger IsRoot(parent, Look(root, x))} :: x in parent ==> IsRoot(parent, Look(root, x)))
  }

  ghost predicate Rises(parent: map<string, string>, root: map<string, string>, rank: map<string, nat>, x: string) {
    && x in rank && Look(parent, x) in parent
    && Look(root, Look(parent, x)) == Look(root, x)
    && (if Look(parent, x) == x then Look(root, x) == x
        else Look(parent, x) in rank && rank[x] < rank[Look(parent, x)])
  }

  lemma NewNodeKeepsRanked(
      parent: map<string, string>, root: map<string, string>, rank: map<string, nat>, top: nat, x: string)
    requires Ranked(parent, root, rank, top) && x !in parent
    ensures Ranked(parent[x := x], root[x := x], rank[x := 0], top)
  {
    var parent', root', rank' := parent[x := x], root[x := x], rank[x := 0];
    forall y {:trigger Rises(parent', root', rank', y)} {:trigger IsRoot(parent', Look(root', y))} | y in parent'
      ensures Rises(parent', root', rank', y) && IsRoot(parent', Look(root', y))
    {
      assert y != x ==>
          Rises(parent, root, rank, y) && IsRoot(parent, Look(root, y)) && Look(parent', y) == Look(parent, y);
    }
  }

  /** Path halving: `x` skips its parent. */
  lemma HalvingKeepsRanked(
      parent: map<string, string>, root: map<string, string>, rank: map<string, nat>, top: nat, x: string)
    requires Ranked(parent, root, rank, top) && x in parent && Look(parent, x) != x
    ensures Ranked(parent[x := Look(parent, Look(parent, x))], root, rank, top)
    ensures Look(root, Look(parent, Look(parent, x))) == Look(root, x) && Look(parent, Look(parent, x)) in parent
    ensures rank[x] < rank[Look(parent, Look(parent, x))] <= top
  {
    var p := Look(parent, x);
    var parent' := parent[x := Look(parent, p)];
    assert Rises(parent, root, rank, x) && Rises(parent, root, rank, p);
    forall y {:trigger Rises(parent', root, rank, y)} {:trigger IsRoot(parent', Look(root, y))} | y in parent'
      ensures Rises(parent', root, rank, y) && IsRoot(parent', Look(root, y))
    {
      assert Rises(parent, root, rank, y) && IsRoot(parent, Look(root, y));
      assert y != x ==> Look(parent', y) == Look(parent, y);
      assert Look(parent', Look(root, y)) == Look(parent, Look(root, y));
    }
  }

  function Linked(rank: map<string, nat>, ra: string, rb: string): map<string, nat>
    requires ra in rank && rb in rank
  {
    rank[rb := if rank[rb] > rank[ra] then rank[rb] else rank[ra] + 1]
  }

  lemma RootsStayInside(parent: map<string, string>, root: map<string, string>, rank: map<string, nat>, top: nat)
    requires Ranked(parent, root, rank, top)
    ensures forall x {:trigger StaysInside(root, x)} :: x in root ==> StaysInside(root, x)
  {
    forall x {:trigger StaysInside(root, x)} | x in root
      ensures StaysInside(root, x)
    {
      assert IsRoot(parent, Look(root, x));
    }
  }

  lemma RootsAreFixed(
      parent: map<string, string>, root: map<string, string>, rank: map<string, nat>, top: nat, x: string)
    requires Ranked(parent, root, rank, top) && x in parent
    ensures IsRoot(parent, Look(root, x)) && Look(root, Look(root, x)) == Look(root, x)
  {
    assert IsRoot(parent, Look(root, x)) && Rises(parent, root, rank, Look(root, x));
  }

  lemma KeysAfterUpdate<V>(m: map<string, V>, k: string, v: V)
    ensures m[k := v].Keys == m.Keys + {k}
    ensures k in m ==> m[k := v].Keys == m.Keys
  {
  }

  lemma KeysAfterJoin(root: map<string, string>, a: string, b: string)
    ensures Joined(root, a, b).Keys == root.Keys + {a, b}
    ensures a in root && b in root ==> Joined(root, a, b).Keys == root.Keys
  {
  }

  /** Hanging one root below another. */
  lemma LinkKeepsRanked(
      parent: map<string, string>, root: map<string, string>, rank: map<string, nat>, top: nat, ra: string, rb: string)
    requires Ranked(parent, root, rank, top) && IsRoot(parent, ra) && IsRoot(parent, rb) && ra != rb
    ensures Ranked(parent[ra := rb], Joined(root, ra, rb), Linked(rank, ra, rb), top + 1)
  {
    var parent', root', rank' := parent[ra := rb], Joined(root, ra, rb), Linked(rank, ra, rb);
    assert Rises(parent, root, rank, ra) && Rises(parent, root, rank, rb);
    KeysAfterUpdate(parent, ra, rb);
    KeysAfterUpdate(rank, rb, rank'[rb]);
    KeysAfterJoin(root, ra, rb);
    forall y {:trigger Rises(parent', root', rank', y)} {:trigger IsRoot(parent', Look(root', y))} | y in parent'
      ensures Rises(parent', root', rank', y) && IsRoot(parent', Look(root', y))
    {
      assert Rises(parent, root, rank, y) && IsRoot(parent, Look(root, y));
      assert y != ra ==> Look(parent', y) == Look(parent, y);
      assert Look(root, y) != ra ==> Look(parent', Look(root, y)) == Look(parent, Look(root, y));
    }
    forall y | y in rank' ensures rank'[y] <= top + 1 {
      assert rank[ra] <= top && rank[y] <= top;
    }
  }

  /** Joining two nodes is joining their roots, and changes nothing when these are equal. */
  lemma JoinRoots(root: map<string, string>, seen: map<string, string>, a: string, b: string)
    requires seen == root[a := Look(root, a)][b := Look(root, b)]
    requires Look(seen, Look(root, a)) == Look(root, a) && Look(seen, Look(root, b)) == Look(root, b)
    requires forall x {:trigger StaysInside(root, x)} :: x in root ==> StaysInside(root, x)
    ensures Joined(root, a, b) ==
      (if Look(root, a) == Look(root, b) then seen else Joined(seen, Look(root, a), Look(root, b)))
  {
    var ra, rb, joined := Look(root, a), Look(root, b), Joined(root, a, b);
    assert a in root ==> StaysInside(root, a);
    assert b in root ==> StaysInside(root, b);
    assert forall x {:trigger Look(seen, x)} :: Look(seen, x) == Look(root, x);
    assert ra in seen && rb in seen;
    assert joined.Keys == seen.Keys;
  }

  lemma SeenBoth(
      before: map<string, string>, middle: map<string, string>, after: map<string, string>, a: string, b: string)
    requires middle == before[a := Look(before, a)] && after == middle[b := Look(middle, b)]
    ensures after == before[a := Look(before, a)][b := Look(before, b)]
    ensures Look(after, a) == Look(middle, a) == Look(before, a) && Look(after, b) == Look(before, b)
  {
  }

  lemma {:induction false} ClimbEnds(
      parent: map<string, string>, root: map<string, string>, rank: map<string, nat>, top: nat, x: string)
    returns (n: nat)
    requires Ranked(parent, root, rank, top) && x in parent
    ensures Climb(parent, x, n) == Look(root, x)
    decreases top - rank[x]
  {
    assert Rises(parent, root, rank, x);
    if Look(parent, x) == x {
      n := 0;
    } else {
      n := ClimbEnds(parent, root, rank, top, Look(parent, x));
      n := n + 1;
    }
  }

  lemma {:induction false} ClimbRises(
      parent: map<string, string>, root: map<string, string>, rank: map<string, nat>, top: nat, x: string, n: nat)
    requires Ranked(parent, root, rank, top) && x in parent
    ensures Climb(parent, x, n) in parent && rank[x] <= rank[Climb(parent, x, n)]
    ensures n > 0 && Look(parent, x) != x ==> rank[x] < rank[Climb(parent, x, n)]
    decreases n
  {
    assert Rises(parent, root, rank, x);
    if n > 0 { ClimbRises(parent, root, rank, top, Look(parent, x), n - 1); }
  }

  lemma RankedIsForest(parent: map<string, string>, root: map<string, string>, rank: map<string, nat>, top: nat)
    requires Ranked(parent, root, rank, top)
    ensures Forest(parent)
  {
    forall x {:trigger EndsInRoot(parent, x)} {:trigger Look(parent, x)} | x in parent
      ensures Look(parent, x) in parent && EndsInRoot(parent, x)
    {
      assert Rises(parent, root, rank, x);
      var n := ClimbEnds(parent, root, rank, top, x);
      assert IsRoot(parent, Look(root, x));
    }
    forall x, n: nat | x in parent && n > 0 && Climb(parent, x, n) == x ensures IsRoot(parent, x) {
      ClimbRises(parent, root, rank, top, x, n);
    }
  }

  class UnionFind {
    var parent: map<string, string>
    /** The root above each node. */
    ghost var root: map<string, string>
    ghost var rank: map<string, nat>
    ghost var top: nat

    ghost predicate Valid()
      reads this
    {
      Ranked(parent, root, rank, top)
    }

    constructor ()
      ensures Valid() && root == map[] && parent == map[]
    {
      parent, root, rank, top := map[], map[], map[], 0;
    }

    /** `find` with path halving: the answer is the root, every other root stays, and the parent map stays a forest
        throughout. */
    method Find(x: string) returns (r: string)
      requires Valid()
      modifies this
      ensures Valid() && Forest(parent)
      ensures root == old(root)[x := Look(old(root), x)] && parent.Keys == old(parent.Keys) + {x}
      ensures r == Look(root, x) && IsRoot(parent, r)
    {
      if x !in parent {
        NewNodeKeepsRanked(parent, root, rank, top, x);
        parent, root, rank := parent[x := x], root[x := x], rank[x := 0];
      }
      r := x;
      while parent[r] != r
        invariant Valid()
        invariant root == old(root)[x := Look(old(root), x)] && parent.Keys == old(parent.Keys) + {x}
        invariant r in parent && Look(root, r) == Look(root, x)
        decreases top - rank[r]
      {
        var p := parent[r];
        HalvingKeepsRanked(parent, root, rank, top, r);
        parent := parent[r := parent[p]];
        r := parent[r];
      }
      RankedIsForest(parent, root, rank, top);
      assert Look(parent, r) == r && Rises(parent, root, rank, r);
    }

    method Link(ra: string, rb: string)
      requires Valid() && IsRoot(parent, ra) && IsRoot(parent, rb) && ra != rb
      modifies this
      ensures Valid() && Forest(parent)
      ensures root == Joined(old(root), ra, rb) && parent.Keys == old(parent.Keys)
    {
      LinkKeepsRanked(parent, root, rank, top, ra, rb);
      KeysAfterUpdate(parent, ra, rb);
      root, rank, top := Joined(root, ra, rb), Linked(rank, ra, rb), top + 1;
      parent := parent[ra := rb];
      RankedIsForest(parent, root, rank, top);
    }

    method Union(a: string, b: string)
      requires Valid()
      modifies this
      ensures Valid() && Forest(parent)
      ensures root == Joined(old(root), a, b) && parent.Keys == old(parent.Keys) + {a, b}
    {
      RootsStayInside(parent, root, rank, top);
      var ra := Find(a);
      ghost var middle := root;
      var rb := Find(b);
      SeenBoth(old(root), middle, root, a, b);
      RootsAreFixed(parent, root, rank, top, a);
      RootsAreFixed(parent, root, rank, top, b);
      JoinRoots(old(root), root, a, b);
      if ra != rb {
        Link(ra, rb);
      }
    }
  }

  // ---------------------------------------------------------------- pairs and nets

  /** The joined pairs are what the nets ask for: the first pin of each net with every other. */
  ghost predicate Covers(pairs: set<Pair>, nets: seq<seq<string>>) {
    && (forall e {:trigger ShareNet(nets, e.left, e.right)} :: e in pairs ==> ShareNet(nets, e.left, e.right))
    && (forall n, i :: n in nets && 1 <= i < |n| ==> Pair(n[0], n[i]) in pairs)
  }

  lemma ExtendChain(nets: seq<seq<string>>, a: string, b: string, c: string)
    requires Connected(nets, a, b) && ShareNet(nets, b, c)
    ensures Connected(nets, a, c)
  {
    var p :| Chain(nets, p) && p[0] == a && p[|p| - 1] == b;
    var q := p + [c];
    assert Chain(nets, q) && q[0] == a && q[|q| - 1] == c;
  }

  lemma {:induction false} ChainKeepsRoot(
      root: map<string, string>, pairs: set<Pair>, nets: seq<seq<string>>, p: seq<string>)
    requires Partitions(root, pairs) && Covers(pairs, nets) && Chain(nets, p)
    ensures Look(root, p[0]) == Look(root, p[|p| - 1])
  {
    if |p| > 1 {
      var front := p[..|p| - 1];
      assert Chain(nets, front);
      ChainKeepsRoot(root, pairs, nets, front);
      NetKeepsRoot(root, pairs, nets, p[|p| - 2], p[|p| - 1]);
    }
  }

  lemma PinsShareRoot(root: map<string, string>, pairs: set<Pair>, n: seq<string>, x: string)
    requires forall e :: e in pairs ==> Look(root, e.left) == Look(root, e.right)
    requires forall i :: 1 <= i < |n| ==> Pair(n[0], n[i]) in pairs
    requires x in n
    ensures Look(root, x) == Look(root, n[0])
  {
    var i :| 0 <= i < |n| && n[i] == x;
    var e := Pair(n[0], n[i]);
    assert i > 0 ==> e in pairs;
    assert e in pairs ==> Look(root, e.left) == Look(root, e.right);
  }

  lemma NetKeepsRoot(root: map<string, string>, pairs: set<Pair>, nets: seq<seq<string>>, a: string, b: string)
    requires Partitions(root, pairs) && Covers(pairs, nets) && ShareNet(nets, a, b)
    ensures Look(root, a) == Look(root, b)
  {
    var n :| n in nets && |n| >= 2 && a in n && b in n;
    PinsShareRoot(root, pairs, n, a);
    PinsShareRoot(root, pairs, n, b);
  }

  /** The root map answers exactly the question whether two pins are on one board net. */
  lemma RootsTellConnection(root: map<string, string>, pairs: set<Pair>, nets: seq<seq<string>>, a: string, b: string)
    requires Partitions(root, pairs) && Covers(pairs, nets)
    ensures Look(root, a) == Look(root, b) <==> Connected(nets, a, b)
  {
    if Connected(nets, a, b) {
      var p :| Chain(nets, p) && p[0] == a && p[|p| - 1] == b;
      ChainKeepsRoot(root, pairs, nets, p);
    }
    if Look(root, a) == Look(root, b) {
      var reached: string -> bool := x => Connected(nets, a, x);
      forall e | e in pairs ensures reached(e.left) == reached(e.right) {
        assert ShareNet(nets, e.left, e.right) && ShareNet(nets, e.right, e.left);
        if reached(e.left) { ExtendChain(nets, a, e.left, e.right); }
        if reached(e.right) { ExtendChain(nets, a, e.right, e.left); }
      }
      assert Respects(reached, pairs);
      assert Chain(nets, [a]) && [a][0] == a && [a][|[a]| - 1] == a;
      SameColour(root, pairs, reached, a, b);
    }
  }

  lemma NodesAreRooted(root: map<string, string>, pairs: set<Pair>, nets: seq<seq<string>>, a: string)
    requires Partitions(root, pairs) && Covers(pairs, nets)
    ensures a in root <==> IsNode(nets, a)
  {
    if a in root {
      assert Mentions(pairs, a);
      var e :| e in pairs && (e.left == a || e.right == a);
      assert ShareNet(nets, e.left, e.right);
    }
    if IsNode(nets, a) {
      var n :| n in nets && |n| >= 2 && a in n;
      var i :| 0 <= i < |n| && n[i] == a;
      assert Pair(n[0], n[if i == 0 then 1 else i]) in pairs;
    }
  }

  // ---------------------------------------------------------------- order

  /** The one list has the nets of the other, in any order and with the pins of each in any order. */
  ghost predicate SameNets(nets: seq<seq<string>>, other: seq<seq<string>>) {
    HasNetsOf(nets, other) && HasNetsOf(other, nets)
  }

  ghost predicate HasNetsOf(nets: seq<seq<string>>, other: seq<seq<string>>) {
    forall n {:trigger HasNet(nets, n)} :: n in other ==> HasNet(nets, n)
  }

  ghost predicate HasNet(nets: seq<seq<string>>, n: seq<string>) {
    exists m :: m in nets && multiset(m) == multiset(n)
  }

  lemma SharingSurvives(nets: seq<seq<string>>, other: seq<seq<string>>, a: string, b: string)
    requires HasNetsOf(other, nets) && ShareNet(nets, a, b)
    ensures ShareNet(other, a, b)
  {
    var n :| n in nets && |n| >= 2 && a in n && b in n;
    assert HasNet(other, n);
    var m :| m in other && multiset(m) == multiset(n);
    assert |m| == |multiset(m)| == |n|;
    assert a in multiset(n) && b in multiset(n);
    assert a in m && b in m;
  }

  lemma ConnectionSurvives(nets: seq<seq<string>>, other: seq<seq<string>>, a: string, b: string)
    requires HasNetsOf(other, nets) && Connected(nets, a, b)
    ensures Connected(other, a, b)
  {
    var p :| Chain(nets, p) && p[0] == a && p[|p| - 1] == b;
    forall i, j | 0 <= i < j < |p| && j == i + 1 ensures ShareNet(other, p[i], p[j]) {
      SharingSurvives(nets, other, p[i], p[j]);
    }
    assert Chain(other, p);
  }

  /** Neither the order of the nets nor the order of the pins in a net matters to who is connected with whom. */
  lemma ConnectionIgnoresOrder(nets: seq<seq<string>>, other: seq<seq<string>>, a: string, b: string)
    requires SameNets(nets, other)
    ensures Connected(nets, a, b) <==> Connected(other, a, b)
    ensures IsNode(nets, a) <==> IsNode(other, a)
  {
    if Connected(nets, a, b) { ConnectionSurvives(nets, other, a, b); }
    if Connected(other, a, b) { ConnectionSurvives(other, nets, a, b); }
    assert IsNode(nets, a) <==> ShareNet(nets, a, a);
    assert IsNode(other, a) <==> ShareNet(other, a, a);
    if ShareNet(nets, a, a) { SharingSurvives(nets, other, a, a); }
    if ShareNet(other, a, a) { SharingSurvives(other, nets, a, a); }
  }
}
