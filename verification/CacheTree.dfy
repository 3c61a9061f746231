/** The files of one token directory, and what PUT, DELETE, MKCOL, MOVE and COPY do to them.

    A tree maps a non-empty path to what lies there. An operation that the file system refuses returns the tree the
    refusal leaves behind. */
module CacheTree {

  type Name(==, !new)
  type Bytes(==, !new)
  type Path = seq<Name>

  datatype Entry = File(bytes: Bytes, mtime: int) | Folder
  type Tree = map<Path, Entry>

  datatype Code =
    | NotFound | SrcMissing | DestExists | NotDir | Forbidden | OsError | Dirty | Unreachable
    | OwnerRequired | SubjectRequired
  datatype Outcome = Done(created: bool) | Failed(code: Code)

  /** Every parent is there, and is a folder. */
  ghost predicate WellFormed(tree: Tree) {
    [] !in tree && forall p {:trigger ParentOk(tree, p)} :: p in tree ==> ParentOk(tree, p)
  }

  ghost predicate ParentOk(tree: Tree, p: Path) {
    |p| > 1 ==> p[..|p| - 1] in tree && tree[p[..|p| - 1]].Folder?
  }

  /** The files, wherever they lie. */
  ghost function Files(tree: Tree): set<Entry> {
    set p | p in tree && tree[p].File? :: tree[p]
  }

  function Parents(p: Path): set<Path> {
    set i | 0 < i < |p| :: p[..i]
  }

  /** A file stands where a parent folder would have to be. */
  predicate Blocked(tree: Tree, p: Path) {
    exists i :: 0 < i < |p| && p[..i] in tree && tree[p[..i]].File?
  }

  function WithParents(tree: Tree, p: Path): Tree {
    tree + map q | q in Parents(p) - tree.Keys :: Folder
  }

  /** Everything but what lies at or below `p`. */
  function Without(tree: Tree, p: Path): Tree {
    map q | q in tree && !(p <= q) :: tree[q]
  }

  function Rebase(src: Path, dst: Path, q: Path): Path
    requires src <= q
  {
    dst + q[|src|..]
  }

  /** What lies at or below `src`, as it would lie at `dst`. */
  function Grafted(tree: Tree, src: Path, dst: Path): (r: Tree)
  {
    map q | q in (set p | p in tree && src <= p :: Rebase(src, dst, p)) && dst <= q && Rebase(dst, src, q) in tree ::
      tree[Rebase(dst, src, q)]
  }

  function Put(tree: Tree, p: Path, bytes: Bytes, now: int): (Tree, Outcome) {
    if p == [] then (tree, Failed(Forbidden))
    else if Blocked(tree, p) || (p in tree && tree[p].Folder?) then (tree, Failed(OsError))
    else (WithParents(tree, p)[p := File(bytes, now)], Done(p !in tree))
  }

  function Delete(tree: Tree, p: Path): (Tree, Outcome) {
    if p == [] then (tree, Failed(Forbidden))
    else if p !in tree then (tree, Failed(NotFound))
    else (Without(tree, p), Done(false))
  }

  function Mkcol(tree: Tree, p: Path): (Tree, Outcome) {
    if p == [] then (tree, Failed(Forbidden))
    else if p in tree && tree[p].File? then (tree, Failed(NotDir))
    else if Blocked(tree, p) then (tree, Failed(OsError))
    else (WithParents(tree, p)[p := Folder], Done(true))
  }

  /** The part MOVE and COPY share: the tree with the destination cleared and its parents made, if that much
      succeeds. */
  function Clear(tree: Tree, src: Path, dst: Path, overwrite: bool): (Tree, Outcome) {
    if src == [] || dst == [] then (tree, Failed(Forbidden))
    else if src !in tree then (tree, Failed(SrcMissing))
    else if dst in tree && !overwrite then (tree, Failed(DestExists))
    else
      var cleared := if dst in tree then Without(tree, dst) else tree;
      if Blocked(cleared, dst) then (cleared, Failed(OsError))
      else (WithParents(cleared, dst), Done(dst !in tree))
  }

  /** A source at or below the destination is gone once that is cleared; a folder cannot go below itself. */
  function Move(tree: Tree, src: Path, dst: Path, overwrite: bool): (Tree, Outcome) {
    var (cleared, outcome) := Clear(tree, src, dst, overwrite);
    if outcome.Failed? then (cleared, outcome)
    else if src !in cleared || src <= dst then (cleared, Failed(OsError))
    else (Without(cleared, src) + Grafted(cleared, src, dst), outcome)
  }

  function Copy(tree: Tree, src: Path, dst: Path, overwrite: bool): (Tree, Outcome)
    requires !(src < dst)
  {
    var (cleared, outcome) := Clear(tree, src, dst, overwrite);
    if outcome.Failed? then (cleared, outcome)
    else if src !in cleared then (cleared, Failed(OsError))
    else (cleared + Grafted(cleared, src, dst), outcome)
  }

  // ---------------------------------------------------------------- no file is made up

  lemma FilesWithParents(tree: Tree, p: Path)
    ensures Files(WithParents(tree, p)) == Files(tree)
  {
    var v := WithParents(tree, p);
    forall q | q in tree && tree[q].File? ensures tree[q] in Files(v) {
      assert v[q] == tree[q];
    }
  }

  lemma FilesOfGrafted(tree: Tree, src: Path, dst: Path)
    ensures Files(Grafted(tree, src, dst)) <= Files(tree)
  {
  }

  lemma FilesOfUnion(a: Tree, b: Tree)
    ensures Files(a + b) <= Files(a) + Files(b)
  {
  }

  lemma PutWrites(tree: Tree, p: Path, bytes: Bytes, now: int)
    ensures Files(Put(tree, p, bytes, now).0) <= Files(tree) + {File(bytes, now)}
  {
    FilesWithParents(tree, p);
  }

  lemma MkcolKeepsFiles(tree: Tree, p: Path)
    ensures Files(Mkcol(tree, p).0) <= Files(tree)
  {
    FilesWithParents(tree, p);
  }

  lemma ClearKeepsFiles(tree: Tree, src: Path, dst: Path, overwrite: bool)
    ensures Files(Clear(tree, src, dst, overwrite).0) <= Files(tree)
  {
    var cleared := if dst in tree then Without(tree, dst) else tree;
    FilesWithParents(cleared, dst);
  }

  /** MOVE and COPY only put old files in new places: bytes and modification times travel together, whatever the
      outcome. */
  lemma MoveCarriesFiles(tree: Tree, src: Path, dst: Path, overwrite: bool)
    ensures Files(Move(tree, src, dst, overwrite).0) <= Files(tree)
  {
    var cleared := Clear(tree, src, dst, overwrite).0;
    ClearKeepsFiles(tree, src, dst, overwrite);
    FilesOfGrafted(cleared, src, dst);
    FilesOfUnion(Without(cleared, src), Grafted(cleared, src, dst));
  }

  lemma CopyCarriesFiles(tree: Tree, src: Path, dst: Path, overwrite: bool)
    requires !(src < dst)
    ensures Files(Copy(tree, src, dst, overwrite).0) <= Files(tree)
  {
    var cleared := Clear(tree, src, dst, overwrite).0;
    ClearKeepsFiles(tree, src, dst, overwrite);
    FilesOfGrafted(cleared, src, dst);
    FilesOfUnion(cleared, Grafted(cleared, src, dst));
  }

  // ---------------------------------------------------------------- the shape of a tree

  /** Nothing lies below what is not there. */
  lemma {:induction false} NothingBelow(tree: Tree, p: Path, q: Path)
    requires WellFormed(tree) && p != [] && p !in tree && p <= q
    ensures q !in tree
    decreases |q|
  {
    if q in tree {
      assert ParentOk(tree, q);
      assert p != q;
      NothingBelow(tree, p, q[..|q| - 1]);
    }
  }

  lemma NothingBelowAny(tree: Tree, p: Path)
    requires WellFormed(tree) && p != [] && p !in tree
    ensures forall q :: p <= q ==> q !in tree
  {
    forall q | p <= q ensures q !in tree {
      NothingBelow(tree, p, q);
    }
  }

  lemma WithParentsIsWellFormed(tree: Tree, p: Path)
    requires WellFormed(tree) && !Blocked(tree, p)
    ensures WellFormed(WithParents(tree, p))
    ensures |p| > 1 ==> p[..|p| - 1] in WithParents(tree, p) && WithParents(tree, p)[p[..|p| - 1]].Folder?
  {
    var v := WithParents(tree, p);
    forall q {:trigger ParentOk(v, q)} | q in v ensures ParentOk(v, q) {
      if q in tree {
        assert ParentOk(tree, q);
      } else if |q| > 1 {
        var i :| 0 < i < |p| && q == p[..i];
        assert q[..|q| - 1] == p[..i - 1];
      }
    }
    if |p| > 1 {
      var i := |p| - 1;
      assert p[..i] in Parents(p);
    }
  }

  lemma WithoutIsWellFormed(tree: Tree, p: Path)
    requires WellFormed(tree)
    ensures WellFormed(Without(tree, p))
  {
    var v := Without(tree, p);
    forall q {:trigger ParentOk(v, q)} | q in v ensures ParentOk(v, q) {
      assert ParentOk(tree, q);
      assert |q| > 1 && p <= q[..|q| - 1] ==> p <= q;
    }
  }

  /** An entry at `p` needs a folder above it, and nothing below it if it is a file. */
  lemma WithEntryIsWellFormed(tree: Tree, p: Path, e: Entry)
    requires WellFormed(tree) && p != [] && ParentOk(tree, p)
    requires e.Folder? || forall q :: p < q ==> q !in tree
    ensures WellFormed(tree[p := e])
  {
    var v := tree[p := e];
    forall q {:trigger ParentOk(v, q)} | q in v ensures ParentOk(v, q) {
      if q != p { assert ParentOk(tree, q); }
      assert |q| > 1 ==> q[..|q| - 1] < q;
    }
  }

  lemma PutIsWellFormed(tree: Tree, p: Path, bytes: Bytes, now: int)
    requires WellFormed(tree)
    ensures WellFormed(Put(tree, p, bytes, now).0)
  {
    if Put(tree, p, bytes, now).1.Done? {
      var v := WithParents(tree, p);
      WithParentsIsWellFormed(tree, p);
      forall q | p < q ensures q !in v {
        assert q !in tree by {
          if p !in tree { NothingBelow(tree, p, q); } else { FileHasNothingBelow(tree, p, q); }
        }
        assert q !in Parents(p);
      }
      WithEntryIsWellFormed(v, p, File(bytes, now));
    }
  }

  lemma {:induction false} FileHasNothingBelow(tree: Tree, p: Path, q: Path)
    requires WellFormed(tree) && p in tree && tree[p].File? && p < q
    ensures q !in tree
    decreases |q|
  {
    if q in tree {
      assert ParentOk(tree, q);
      assert p <= q[..|q| - 1];
      if p == q[..|q| - 1] {
        assert false;
      } else {
        FileHasNothingBelow(tree, p, q[..|q| - 1]);
      }
    }
  }

  lemma MkcolIsWellFormed(tree: Tree, p: Path)
    requires WellFormed(tree)
    ensures WellFormed(Mkcol(tree, p).0)
  {
    if Mkcol(tree, p).1.Done? {
      WithParentsIsWellFormed(tree, p);
      WithEntryIsWellFormed(WithParents(tree, p), p, Folder);
    }
  }

  lemma ClearIsWellFormed(tree: Tree, src: Path, dst: Path, overwrite: bool)
    requires WellFormed(tree)
    ensures var (v, outcome) := Clear(tree, src, dst, overwrite);
      && WellFormed(v)
      && (outcome.Done? ==> dst != [] && ParentOk(v, dst) && forall q :: dst <= q ==> q !in v)
  {
    var (v, outcome) := Clear(tree, src, dst, overwrite);
    if src != [] && dst != [] && src in tree && !(dst in tree && !overwrite) {
      var cleared := if dst in tree then Without(tree, dst) else tree;
      WithoutIsWellFormed(tree, dst);
      NothingBelowAny(cleared, dst);
      if outcome.Done? {
        WithParentsIsWellFormed(cleared, dst);
        assert forall q :: q in Parents(dst) ==> !(dst <= q);
      }
    }
  }

  lemma GraftedAt(tree: Tree, src: Path, dst: Path, q: Path)
    ensures q in Grafted(tree, src, dst) <==> dst <= q && Rebase(dst, src, q) in tree
    ensures q in Grafted(tree, src, dst) ==> Grafted(tree, src, dst)[q] == tree[Rebase(dst, src, q)]
  {
    if dst <= q && Rebase(dst, src, q) in tree {
      assert Rebase(src, dst, Rebase(dst, src, q)) == q;
    }
  }

  /** A whole subtree, moved below a folder, is a tree. */
  lemma GraftIsWellFormed(tree: Tree, base: Tree, src: Path, dst: Path)
    requires WellFormed(tree) && WellFormed(base) && src != [] && dst != [] && ParentOk(base, dst)
    requires forall q :: dst <= q ==> q !in base
    ensures WellFormed(base + Grafted(tree, src, dst))
  {
    var g := Grafted(tree, src, dst);
    var v := base + g;
    forall q {:trigger ParentOk(v, q)} | q in v ensures ParentOk(v, q) {
      if q in g {
        GraftedAt(tree, src, dst, q);
        if q == dst {
          assert q[..|q| - 1] !in g;
        } else {
          var back := Rebase(dst, src, q);
          var above := q[..|q| - 1];
          assert ParentOk(tree, back);
          assert dst <= above && Rebase(dst, src, above) == back[..|back| - 1];
          GraftedAt(tree, src, dst, above);
        }
      } else {
        assert ParentOk(base, q);
        assert |q| > 1 && dst <= q[..|q| - 1] ==> dst <= q;
      }
    }
  }

  lemma MoveIsWellFormed(tree: Tree, src: Path, dst: Path, overwrite: bool)
    requires WellFormed(tree)
    ensures WellFormed(Move(tree, src, dst, overwrite).0)
  {
    var (cleared, outcome) := Clear(tree, src, dst, overwrite);
    ClearIsWellFormed(tree, src, dst, overwrite);
    if outcome.Done? && src in cleared && !(src <= dst) {
      var base := Without(cleared, src);
      WithoutIsWellFormed(cleared, src);
      assert ParentOk(cleared, dst);
      assert |dst| > 1 && src <= dst[..|dst| - 1] ==> src <= dst;
      GraftIsWellFormed(cleared, base, src, dst);
    }
  }

  lemma CopyIsWellFormed(tree: Tree, src: Path, dst: Path, overwrite: bool)
    requires WellFormed(tree) && !(src < dst)
    ensures WellFormed(Copy(tree, src, dst, overwrite).0)
  {
    var (cleared, outcome) := Clear(tree, src, dst, overwrite);
    ClearIsWellFormed(tree, src, dst, overwrite);
    if outcome.Done? {
      GraftIsWellFormed(cleared, cleared, src, dst);
    }
  }

  // ---------------------------------------------------------------- what each request does, and when it is refused

  /** Every proper prefix of the path is free or a folder. */
  ghost predicate Reachable(tree: Tree, p: Path) {
    forall i :: 0 < i < |p| && p[..i] in tree ==> tree[p[..i]].Folder?
  }

  /** What `v` has besides the entry at `p`: all that `tree` has, and folders on the way to `p`. */
  ghost predicate MadeWay(tree: Tree, v: Tree, p: Path, q: Path) {
    && (q in tree && q != p ==> q in v && v[q] == tree[q])
    && (q in v && q !in tree && q != p ==> q < p && v[q] == Folder)
  }

  lemma WithParentsMakesWay(tree: Tree, p: Path, e: Entry, q: Path)
    ensures MadeWay(tree, WithParents(tree, p)[p := e], p, q)
    ensures Blocked(tree, p) <==> !Reachable(tree, p)
  {
  }

  /** PUT writes a file anywhere but at a folder or below a file, and changes nothing else. */
  lemma PutIs(tree: Tree, p: Path, bytes: Bytes, now: int, q: Path)
    ensures var (v, outcome) := Put(tree, p, bytes, now);
      && (outcome.Done? <==> p != [] && Reachable(tree, p) && (p in tree ==> tree[p].File?))
      && (outcome.Failed? ==> v == tree && outcome.code == if p == [] then Forbidden else OsError)
      && (outcome.Done? ==>
            && (outcome.created <==> p !in tree)
            && p in v && v[p] == File(bytes, now) && MadeWay(tree, v, p, q))
  {
    WithParentsMakesWay(tree, p, File(bytes, now), q);
    hide WithParents, MadeWay, Reachable;
  }

  /** DELETE takes what lies at or below the path, and nothing else. */
  lemma DeleteIs(tree: Tree, p: Path, q: Path)
    ensures var (v, outcome) := Delete(tree, p);
      && (outcome.Done? <==> p != [] && p in tree)
      && (outcome.Failed? ==> v == tree && outcome.code == if p == [] then Forbidden else NotFound)
      && (outcome.Done? ==> (q in v <==> q in tree && !(p <= q)) && (q in v ==> v[q] == tree[q]))
  {
  }

  /** MKCOL makes a folder, or leaves the one that is there, and changes nothing else. */
  lemma MkcolIs(tree: Tree, p: Path, q: Path)
    ensures var (v, outcome) := Mkcol(tree, p);
      && (outcome.Done? <==> p != [] && Reachable(tree, p) && (p in tree ==> tree[p].Folder?))
      && (outcome.Failed? ==>
            && v == tree
            && outcome.code == if p == [] then Forbidden else if p in tree && tree[p].File? then NotDir else OsError)
      && (outcome.Done? ==> p in v && v[p] == Folder && MadeWay(tree, v, p, q))
  {
    WithParentsMakesWay(tree, p, Folder, q);
    hide WithParents, MadeWay, Reachable;
  }

  /** The way to `p` is clear once nothing lies at or below `dst` any more. */
  lemma ClearedWay(tree: Tree, p: Path)
    ensures Blocked(Without(tree, p), p) <==> !Reachable(tree, p)
  {
    forall i | 0 < i < |p| ensures p[..i] in Without(tree, p) <==> p[..i] in tree {
    }
  }

  lemma ClearOutcome(tree: Tree, src: Path, dst: Path, overwrite: bool)
    ensures var (v, outcome) := Clear(tree, src, dst, overwrite);
      && outcome == (
           if src == [] || dst == [] then Failed(Forbidden)
           else if src !in tree then Failed(SrcMissing)
           else if dst in tree && !overwrite then Failed(DestExists)
           else if !Reachable(tree, dst) then Failed(OsError)
           else Done(dst !in tree))
      && (outcome.Failed? && outcome.code != OsError ==> v == tree)
  {
    ClearedWay(tree, dst);
    WithParentsMakesWay(tree, dst, Folder, dst);
  }

  /** What is left at `q` when the destination was cleared but nothing arrived. */
  ghost predicate OnlyCleared(tree: Tree, v: Tree, dst: Path, overwritten: bool, q: Path) {
    && (q in tree && !(overwritten && dst <= q) ==> q in v && v[q] == tree[q])
    && (overwritten && dst <= q ==> q !in v)
    && (q in v && q !in tree ==> q < dst && v[q] == Folder)
  }

  lemma ClearLeaves(tree: Tree, src: Path, dst: Path, overwrite: bool, q: Path)
    requires src != [] && dst != [] && src in tree && !(dst in tree && !overwrite)
    ensures OnlyCleared(tree, Clear(tree, src, dst, overwrite).0, dst, dst in tree, q)
    ensures src in Clear(tree, src, dst, overwrite).0 <==> !(dst in tree && dst <= src)
  {
    var cleared := if dst in tree then Without(tree, dst) else tree;
    assert forall r :: r in Parents(dst) ==> r < dst;
  }

  /** MOVE answers in this order: the root is out of bounds, the source must be there, the destination must be free or
      given up, the way to it clear, and neither may lie in the other. A refusal of the first three kinds changes
      nothing; a later one comes when a destination that was given up is lost already. */
  lemma MoveOutcome(tree: Tree, src: Path, dst: Path, overwrite: bool, q: Path)
    ensures var (v, outcome) := Move(tree, src, dst, overwrite);
      && outcome == (
           if src == [] || dst == [] then Failed(Forbidden)
           else if src !in tree then Failed(SrcMissing)
           else if dst in tree && !overwrite then Failed(DestExists)
           else if !Reachable(tree, dst) || src <= dst || (dst <= src && dst in tree) then Failed(OsError)
           else Done(dst !in tree))
      && (outcome.Failed? && outcome.code != OsError ==> v == tree)
      && (outcome == Failed(OsError) ==> OnlyCleared(tree, v, dst, dst in tree, q))
  {
    ClearOutcome(tree, src, dst, overwrite);
    if src != [] && dst != [] && src in tree && !(dst in tree && !overwrite) {
      ClearLeaves(tree, src, dst, overwrite, q);
    }
    hide Clear, Grafted, Without, Reachable, OnlyCleared;
  }

  /** COPY answers alike, but for a source below its destination, which the program does not support, and that a source
      may be copied out of a folder that is there. */
  lemma CopyOutcome(tree: Tree, src: Path, dst: Path, overwrite: bool, q: Path)
    requires !(src < dst)
    ensures var (v, outcome) := Copy(tree, src, dst, overwrite);
      && outcome == (
           if src == [] || dst == [] then Failed(Forbidden)
           else if src !in tree then Failed(SrcMissing)
           else if dst in tree && !overwrite then Failed(DestExists)
           else if !Reachable(tree, dst) || (dst <= src && dst in tree) then Failed(OsError)
           else Done(dst !in tree))
      && (outcome.Failed? && outcome.code != OsError ==> v == tree)
      && (outcome == Failed(OsError) ==> OnlyCleared(tree, v, dst, dst in tree, q))
  {
    ClearOutcome(tree, src, dst, overwrite);
    if src != [] && dst != [] && src in tree && !(dst in tree && !overwrite) {
      ClearLeaves(tree, src, dst, overwrite, q);
    }
    hide Clear, Grafted, Without, Reachable, OnlyCleared;
  }

  /** A request that is refused should leave its source alone. It does, unless the source is the destination, or lies
      in it, and overwriting is allowed: then clearing the destination takes the source, and nothing arrives. */
  lemma RefusalLosesSourceIff(tree: Tree, src: Path, dst: Path, overwrite: bool)
    requires src in tree
    requires Move(tree, src, dst, overwrite).1.Failed?
    ensures src !in Move(tree, src, dst, overwrite).0 <==>
      src != [] && dst != [] && overwrite && dst in tree && dst <= src
  {
    MoveOutcome(tree, src, dst, overwrite, src);
    hide Move, Reachable;
  }

  /** Such a request: a file moved onto itself is gone. */
  lemma MovedOntoItself(p: Path, bytes: Bytes, at: int)
    requires |p| == 1
    ensures Move(map[p := File(bytes, at)], p, p, true) == (map[], Failed(OsError))
  {
    var tree := map[p := File(bytes, at)];
    assert Without(tree, p) == map[];
    assert Parents(p) == {};
  }

  // ---------------------------------------------------------------- what arrives and what is discarded

  lemma ClearSpares(tree: Tree, src: Path, dst: Path, overwrite: bool, q: Path)
    requires Clear(tree, src, dst, overwrite).1.Done?
    ensures var v := Clear(tree, src, dst, overwrite).0;
      && (q in tree && !(dst <= q) ==> q in v && v[q] == tree[q])
      && (q in v ==> (q in tree && v[q] == tree[q]) || (q !in tree && q < dst && v[q] == Folder))
      && (WellFormed(tree) && dst <= q ==> q !in v)
  {
    if WellFormed(tree) { ClearIsWellFormed(tree, src, dst, overwrite); }
  }

  lemma PathsBranch(a: Path, b: Path, q: Path)
    requires a <= q && b <= q
    ensures a <= b || b <= a
  {
    if |a| <= |b| { assert a == q[..|a|] == b[..|a|]; } else { assert b == q[..|b|] == a[..|b|]; }
  }

  lemma MoveIs(tree: Tree, src: Path, dst: Path, overwrite: bool)
    requires Move(tree, src, dst, overwrite).1.Done?
    ensures var cleared := Clear(tree, src, dst, overwrite).0;
      && Clear(tree, src, dst, overwrite).1.Done? && src in cleared && !(src <= dst)
      && Move(tree, src, dst, overwrite).0 == Without(cleared, src) + Grafted(cleared, src, dst)
  {
  }

  /** After a MOVE: whatever lay at or below the source lies at or below the destination, and nowhere else; what lay
      elsewhere is as it was; only what lay at or below the destination is discarded. */
  lemma MoveArrives(tree: Tree, src: Path, dst: Path, overwrite: bool, q: Path)
    requires WellFormed(tree) && Move(tree, src, dst, overwrite).1.Done?
    ensures var v := Move(tree, src, dst, overwrite).0;
      && (q in tree && src <= q ==> Rebase(src, dst, q) in v && v[Rebase(src, dst, q)] == tree[q] && q !in v)
      && (q in tree && !(src <= q) && !(dst <= q) ==> q in v && v[q] == tree[q])
      && (q in v ==>
            || (dst <= q && Rebase(dst, src, q) in tree)
            || (q in tree && !(src <= q) && !(dst <= q))
            || (q !in tree && q < dst && v[q] == Folder))
  {
    var (cleared, outcome) := Clear(tree, src, dst, overwrite);
    MoveIs(tree, src, dst, overwrite);
    ClearSpares(tree, src, dst, overwrite, src);
    ClearSpares(tree, src, dst, overwrite, q);
    GraftedAt(cleared, src, dst, q);
    if dst <= q { ClearSpares(tree, src, dst, overwrite, Rebase(dst, src, q)); }
    hide Move, Clear, WellFormed, Grafted;
    if q in tree && src <= q {
      if dst <= q { PathsBranch(src, dst, q); }
      var r := Rebase(src, dst, q);
      assert Rebase(dst, src, r) == q;
      GraftedAt(cleared, src, dst, r);
    }
  }

  lemma CopyIs(tree: Tree, src: Path, dst: Path, overwrite: bool)
    requires !(src < dst) && Copy(tree, src, dst, overwrite).1.Done?
    ensures var cleared := Clear(tree, src, dst, overwrite).0;
      && Clear(tree, src, dst, overwrite).1.Done? && src in cleared
      && Copy(tree, src, dst, overwrite).0 == cleared + Grafted(cleared, src, dst)
  {
  }

  /** After a COPY: whatever lies at or below the source lies at or below the destination as well; all but what lay at
      or below the destination is as it was. */
  lemma CopyArrives(tree: Tree, src: Path, dst: Path, overwrite: bool, q: Path)
    requires WellFormed(tree) && !(src < dst) && Copy(tree, src, dst, overwrite).1.Done?
    ensures var v := Copy(tree, src, dst, overwrite).0;
      && (q in tree && src <= q ==> Rebase(src, dst, q) in v && v[Rebase(src, dst, q)] == tree[q])
      && (q in tree && !(dst <= q) ==> q in v && v[q] == tree[q])
      && (q in v ==>
            || (dst <= q && Rebase(dst, src, q) in tree)
            || (q in tree && !(dst <= q))
            || (q !in tree && q < dst && v[q] == Folder))
  {
    var (cleared, outcome) := Clear(tree, src, dst, overwrite);
    CopyIs(tree, src, dst, overwrite);
    ClearSpares(tree, src, dst, overwrite, src);
    ClearSpares(tree, src, dst, overwrite, q);
    GraftedAt(cleared, src, dst, q);
    if dst <= q { ClearSpares(tree, src, dst, overwrite, Rebase(dst, src, q)); }
    hide Copy, Clear, WellFormed, Grafted;
    if q in tree && src <= q {
      if dst <= q { PathsBranch(src, dst, q); }
      var r := Rebase(src, dst, q);
      assert Rebase(dst, src, r) == q;
      GraftedAt(cleared, src, dst, r);
    }
  }

  // ---------------------------------------------------------------- a move and the move back

  lemma {:induction false} AllParents(tree: Tree, p: Path)
    requires WellFormed(tree) && p in tree
    ensures forall q :: q in Parents(p) ==> q in tree && tree[q].Folder?
    decreases |p|
  {
    assert ParentOk(tree, p);
    if |p| > 1 {
      var up := p[..|p| - 1];
      AllParents(tree, up);
      forall q | q in Parents(p) ensures q in tree && tree[q].Folder? {
        var i :| 0 < i < |p| && q == p[..i];
        if i < |p| - 1 { assert q == up[..i]; }
      }
    }
  }

  lemma GraftBack(tree: Tree, src: Path, dst: Path)
    requires !(src <= dst) && !(dst <= src) && forall q :: dst <= q ==> q !in tree
    ensures var base := Without(tree, src); var v := base + Grafted(tree, src, dst);
      Without(v, dst) == base && base + Grafted(v, dst, src) == tree
  {
    var base := Without(tree, src);
    var there := Grafted(tree, src, dst);
    var v := base + there;
    forall q ensures q in there <==> dst <= q && Rebase(dst, src, q) in tree {
      GraftedAt(tree, src, dst, q);
    }
    assert Without(v, dst) == base;
    forall q ensures q in Grafted(v, dst, src) <==> src <= q && q in tree
      ensures q in Grafted(v, dst, src) ==> Grafted(v, dst, src)[q] == tree[q]
    {
      GraftedAt(v, dst, src, q);
      if src <= q {
        var r := Rebase(src, dst, q);
        assert Rebase(dst, src, r) == q;
        GraftedAt(tree, src, dst, r);
      }
    }
  }

  lemma BackIsClear(tree: Tree, src: Path, dst: Path)
    requires WellFormed(tree) && src in tree && src != [] && dst != [] && dst !in tree && !(src <= dst) && !(dst <= src)
    ensures var v := Without(WithParents(tree, dst), src) + Grafted(WithParents(tree, dst), src, dst);
      Clear(v, dst, src, false) == (v, Done(true))
  {
    var cleared := WithParents(tree, dst);
    var v := Without(cleared, src) + Grafted(cleared, src, dst);
    GraftedAt(cleared, src, dst, dst);
    GraftedAt(cleared, src, dst, src);
    AllParents(tree, src);
    assert Rebase(dst, src, dst) == src;
    assert dst in v && src !in v;
    forall q | q in Parents(src) ensures q in v && v[q] == tree[q] && v[q].Folder? {
      GraftedAt(cleared, src, dst, q);
      assert !(src <= q);
    }
    assert WithParents(v, src) == v;
    forall i | 0 < i < |src| ensures v[src[..i]].Folder? {
      assert src[..i] in Parents(src);
    }
  }

  /** Moved to a place where nothing was and moved back, a tree is as it was, but for the folders made on the way. */
  lemma MoveBack(tree: Tree, src: Path, dst: Path)
    requires WellFormed(tree) && Move(tree, src, dst, false).1.Done?
    ensures Move(Move(tree, src, dst, false).0, dst, src, false) == (WithParents(tree, dst), Done(true))
  {
    var cleared := WithParents(tree, dst);
    ClearIsWellFormed(tree, src, dst, false);
    assert !(dst <= src) by {
      if dst <= src { NothingBelow(tree, dst, src); }
    }
    GraftBack(cleared, src, dst);
    BackIsClear(tree, src, dst);
  }
}
