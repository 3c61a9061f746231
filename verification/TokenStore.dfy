/** The token store as the program runs it: directories and sidecars changed in place, sweeps and scans as loops.

    Each method is one operation of CacheStore, so what is proved there over runs holds of any sequence of calls. */
module TokenStore {
  import opened Basics
  import opened CacheTree
  import opened CacheStore

  function StaleTokens(dirs: map<Token, Dir>, metas: map<Token, Meta>, cfg: Config, t: int): set<Token> {
    set k | k in dirs && Stale(dirs, metas, cfg.ttl, t, k)
  }

  function ExpiredTokens(dirs: map<Token, Dir>, metas: map<Token, Meta>, cfg: Config, t: int): set<Token> {
    set k | k in dirs && Expired(dirs, metas, cfg.safetyTtl, t, k)
  }

  function OrphanMetas(dirs: map<Token, Dir>, metas: map<Token, Meta>, cfg: Config): set<Token> {
    set k | k in metas && Orphan(dirs, metas, cfg.safetyTtl, k)
  }

  /** The files of a tree, as an export writes them. */
  function CopiedOut(tree: Tree): Tree {
    map p | p in tree && tree[p].File? :: tree[p]
  }

  lemma CopyKeepsBytes(tree: Tree)
    ensures BytesOf(CopiedOut(tree)) == BytesOf(tree)
  {
    forall p | p in tree && tree[p].File? ensures tree[p].bytes in BytesOf(CopiedOut(tree)) {
      assert p in CopiedOut(tree);
    }
  }

  method CopyOut(tree: Tree) returns (target: Tree, count: nat)
    ensures target == CopiedOut(tree) && count == |target|
  {
    target, count := map[], 0;
    var todo := tree.Keys;
    while todo != {}
      invariant todo <= tree.Keys
      invariant target == map p | p in tree && p !in todo && tree[p].File? :: tree[p]
      invariant count == |target|
      decreases todo
    {
      var p :| p in todo;
      todo := todo - {p};
      if tree[p].File? {
        target := target[p := tree[p]];
        count := count + 1;
      }
    }
  }

  /** Some file is younger than the last export, or there was none. */
  ghost predicate IsDirty(tree: Tree, lastExportAt: Option<int>) {
    exists p :: p in tree && tree[p].File? && (lastExportAt == None || lastExportAt.value < tree[p].mtime)
  }

  /** A sweep takes it: a cache by the later of its last use and its directory's date, any other token by its
      directory's date alone. */
  predicate IsSwept(dirs: map<Token, Dir>, metas: map<Token, Meta>, cfg: Config, t: int, k: Token) {
    k in dirs &&
    if k in metas then
      cfg.safetyTtl > 0 && t - metas[k].lastUsedAt >= cfg.safetyTtl && t - dirs[k].mtime >= cfg.safetyTtl
    else cfg.ttl > 0 && dirs[k].mtime < t - cfg.ttl
  }

  /** What a sweep leaves of the directories: all that it does not take, as they were. */
  ghost predicate LeftBySweep(
      before: map<Token, Dir>, metas: map<Token, Meta>, cfg: Config, t: int, dirs: map<Token, Dir>)
  {
    && (forall k :: k in dirs <==> k in before && !IsSwept(before, metas, cfg, t, k))
    && (forall k :: k in dirs ==> dirs[k] == before[k])
  }

  /** What it leaves of the sidecars: with the safety net on, those that have a directory. */
  ghost predicate MetasLeft(before: map<Token, Meta>, cfg: Config, dirs: map<Token, Dir>, metas: map<Token, Meta>) {
    && (forall k :: k in metas <==> k in before && (cfg.safetyTtl > 0 ==> k in dirs))
    && (forall k :: k in metas ==> metas[k] == before[k])
  }

  lemma SweptAre(w: World, cfg: Config, t: int, k: Token)
    ensures k in Reapable(w, cfg, t) <==> IsSwept(w.dirs, w.metas, cfg, t, k)
  {
  }

  lemma ReapingIs(w: World, cfg: Config, t: int)
    ensures Reaping(w, cfg, t).dirs == w.dirs - Reapable(w, cfg, t)
    ensures Reaping(w, cfg, t).metas == w.metas - (Reapable(w, cfg, t) + Orphans(w, cfg))
  {
    assert w.dirs - (Reapable(w, cfg, t) + Orphans(w, cfg)) == w.dirs - Reapable(w, cfg, t);
  }

  lemma MetasAreLeft(w: World, cfg: Config, t: int)
    ensures MetasLeft(w.metas, cfg, Reaping(w, cfg, t).dirs, Reaping(w, cfg, t).metas)
  {
    ReapingIs(w, cfg, t);
    hide Reaping;
    forall k | k in w.metas
      ensures k in Reaping(w, cfg, t).metas <==> cfg.safetyTtl <= 0 || k in Reaping(w, cfg, t).dirs
    {
      SweptAre(w, cfg, t, k);
    }
  }

  lemma ReapTakesTheSwept(w: World, cfg: Config, t: int)
    ensures LeftBySweep(w.dirs, w.metas, cfg, t, Reaping(w, cfg, t).dirs)
    ensures |Reapable(w, cfg, t)| == |w.dirs| - |Reaping(w, cfg, t).dirs|
  {
    var gone := Reapable(w, cfg, t);
    ReapingIs(w, cfg, t);
    forall k ensures k in gone <==> IsSwept(w.dirs, w.metas, cfg, t, k) {
      SweptAre(w, cfg, t, k);
    }
    hide IsSwept, Reaping;
    var left := w.dirs - gone;
    assert left.Keys == w.dirs.Keys - gone;
    assert gone <= w.dirs.Keys;
    hide Reapable;
    assert |left.Keys| == |w.dirs.Keys| - |gone|;
  }

  /** What a sweep does, and what it counts: the directories it takes. */
  ghost predicate SweptClean(w: World, cfg: Config, t: int, v: World, removed: nat) {
    && LeftBySweep(w.dirs, w.metas, cfg, t, v.dirs) && MetasLeft(w.metas, cfg, v.dirs, v.metas)
    && removed == |w.dirs| - |v.dirs|
  }

  lemma ReapingSweepsClean(w: World, cfg: Config, t: int)
    ensures SweptClean(w, cfg, t, Reaping(w, cfg, t), |Reapable(w, cfg, t)|)
  {
    hide LeftBySweep, MetasLeft, Reaping, Reapable;
    ReapTakesTheSwept(w, cfg, t);
    MetasAreLeft(w, cfg, t);
  }

  lemma StagedIsNew(w: World, cfg: Config, t: int, id: Token, dir: Dir)
    requires id !in w.dirs && id !in w.metas
    ensures id !in Reaping(w, cfg, t).metas
    ensures Reaping(w, cfg, t).dirs[id := dir] - {id} == Reaping(w, cfg, t).dirs
  {
    ReapingIs(w, cfg, t);
    hide Reaping, Reapable, Orphans;
  }

  class Store {
    var dirs: map<Token, Dir>
    var metas: map<Token, Meta>
    ghost var exported: map<Token, set<Bytes>>
    ghost var used: map<Token, int>
    ghost var dated: set<Token>
    ghost var late: set<Token>
    ghost var now: int
    const cfg: Config

    constructor (cfg: Config)
      ensures W() == Empty() && this.cfg == cfg
    {
      this.cfg := cfg;
      dirs, metas, exported, used, dated, late, now := map[], map[], map[], map[], {}, {}, 0;
    }

    ghost function W(): World
      reads this
    {
      World(dirs, metas, exported, used, dated, late, now)
    }

    ghost method Become(w: World)
      requires w.dirs == dirs && w.metas == metas
      modifies `exported, `used, `dated, `late, `now
      ensures W() == w
    {
      exported, used, dated, late, now := w.exported, w.used, w.dated, w.late, w.now;
    }

    /** `_reap_ephemeral`. */
    method ReapEphemeral(t: int) returns (removed: nat)
      modifies `dirs
      ensures var gone := StaleTokens(old(dirs), metas, cfg, t);
        dirs == old(dirs) - gone && removed == |gone|
    {
      removed := 0;
      if cfg.ttl <= 0 {
        assert StaleTokens(old(dirs), metas, cfg, t) == {};
        assert dirs == dirs - {};
        return;
      }
      var todo := dirs.Keys;
      ghost var gone: set<Token> := {};
      while todo != {}
        invariant todo <= old(dirs).Keys && gone !! todo
        invariant gone == set k | k in old(dirs) && k !in todo && Stale(old(dirs), metas, cfg.ttl, t, k)
        invariant dirs == old(dirs) - gone && removed == |gone|
        decreases todo
      {
        var k :| k in todo;
        todo := todo - {k};
        if dirs[k].mtime < t - cfg.ttl && k !in metas {
          dirs := dirs - {k};
          removed := removed + 1;
          gone := gone + {k};
        }
      }
      assert gone == StaleTokens(old(dirs), metas, cfg, t);
    }

    /** `reap_safety_net`. */
    method ReapSafetyNet(t: int) returns (removed: nat)
      modifies `dirs, `metas
      ensures var gone := ExpiredTokens(old(dirs), old(metas), cfg, t);
        var orphans := OrphanMetas(old(dirs), old(metas), cfg);
        dirs == old(dirs) - gone && metas == old(metas) - gone - orphans && removed == |gone|
    {
      removed := 0;
      if cfg.safetyTtl <= 0 {
        assert ExpiredTokens(old(dirs), old(metas), cfg, t) == {};
        assert OrphanMetas(old(dirs), old(metas), cfg) == {};
        assert dirs == dirs - {} && metas == metas - {} - {};
        return;
      }
      var todo := metas.Keys;
      ghost var gone: set<Token>, orphans: set<Token> := {}, {};
      while todo != {}
        invariant todo <= old(metas).Keys && gone !! todo && orphans !! todo
        invariant gone == set k | k in old(metas) && k !in todo && Expired(old(dirs), old(metas), cfg.safetyTtl, t, k)
        invariant orphans == set k | k in old(metas) && k !in todo && Orphan(old(dirs), old(metas), cfg.safetyTtl, k)
        invariant dirs == old(dirs) - gone && metas == old(metas) - gone - orphans && removed == |gone|
        decreases todo
      {
        var k :| k in todo;
        todo := todo - {k};
        if k !in dirs {
          metas := metas - {k};
          orphans := orphans + {k};
        } else if t - Max(metas[k].lastUsedAt, dirs[k].mtime) >= cfg.safetyTtl {
          dirs, metas := dirs - {k}, metas - {k};
          removed := removed + 1;
          gone := gone + {k};
        }
      }
      assert gone == ExpiredTokens(old(dirs), old(metas), cfg, t);
      assert orphans == OrphanMetas(old(dirs), old(metas), cfg);
    }

    method Reap(t: int) returns (removed: nat)
      modifies this
      ensures (W(), Reaped(removed)) == Step(old(W()), cfg, Op.Reap, t)
      ensures SweptClean(old(W()), cfg, t, W(), removed)
    {
      hide SweptClean, Reaping, Reapable, StaleTokens, ExpiredTokens, OrphanMetas;
      ghost var w := W();
      var first := ReapEphemeral(t);
      var second := ReapSafetyNet(t);
      removed := first + second;
      ReapInTwo(w, cfg, t);
      ReapingSweepsClean(w, cfg, t);
      Become(Reaping(w, cfg, t));
    }

    /** `new_token`: the directory of a token that has never been used. */
    method NewToken(id: Token, t: int)
      requires id !in dirs && id !in metas
      modifies this
      ensures W() == NewDir(Reaping(old(W()), cfg, t), id, map[], None, t)
    {
      var _ := Reap(t);
      dirs := dirs[id := Dir(t, map[])];
      used := used[id := t];
    }

    /** `stage_tarball` and its fellows: the files are written into a new token's directory. An archive with an entry
        for its own root sets the date of that directory. */
    method StageFiles(id: Token, tree: Tree, date: Option<int>, t: int) returns (reply: Reply)
      requires id !in dirs && id !in metas && WellFormed(tree)
      modifies this
      ensures (W(), reply) == Step(old(W()), cfg, Op.Stage(id, tree, date), t)
      ensures reply == Given(id) && id in dirs && id !in metas
      ensures dirs[id].tree == tree && dirs[id].mtime == if date.Some? then date.value else t
      ensures LeftBySweep(old(dirs), old(metas), cfg, t, dirs - {id})
    {
      hide LeftBySweep, MetasLeft, Reaping;
      var dir := Dir(if date.Some? then date.value else t, tree);
      ReapTakesTheSwept(W(), cfg, t);
      StagedIsNew(W(), cfg, t, id, dir);
      NewToken(id, t);
      dirs := dirs[id := dir];
      if date.Some? {
        dated := dated + {id};
      }
      assert W() == NewDir(Reaping(old(W()), cfg, t), id, tree, date, t);
      return Given(id);
    }

    /** `provision_cache`: the live cache of this owner and subject if the scan meets one, else a new one. */
    method Provision(owner: string, subject: string, id: Token, t: int) returns (reply: Reply)
      requires Ok(W()) && id !in dirs && id !in metas
      modifies this
      ensures (W(), reply) == Step(old(W()), cfg, Op.Provision(owner, subject, id), t)
      ensures owner == "" ==> reply == Did(Failed(OwnerRequired)) && dirs == old(dirs) && metas == old(metas)
      ensures owner != "" && subject == "" ==>
        reply == Did(Failed(SubjectRequired)) && dirs == old(dirs) && metas == old(metas)
      ensures owner != "" && subject != "" ==>
        && reply.Given? && reply.token in dirs && reply.token in metas
        && metas[reply.token].owner == owner && metas[reply.token].subject == subject
        && metas[reply.token].lastUsedAt == t
        && (reply.token in old(metas) ==>
              && dirs == old(dirs)
              && metas == old(metas)[reply.token := old(metas)[reply.token].(lastUsedAt := t)])
        && (reply.token !in old(metas) ==>
              && reply.token == id && dirs[id] == Dir(t, map[])
              && metas[id].createdAt == t && metas[id].lastExportAt == None
              && forall k :: k in old(metas) && k in old(dirs) ==>
                   old(metas)[k].owner != owner || old(metas)[k].subject != subject)
    {
      ghost var w := W();
      if owner == "" {
        now := t;
        return Did(Failed(OwnerRequired));
      }
      if subject == "" {
        now := t;
        return Did(Failed(SubjectRequired));
      }
      var todo := metas.Keys;
      while todo != {}
        invariant W() == w && todo <= metas.Keys
        invariant forall k :: k in metas && k !in todo ==> !IsLive(w, k, owner, subject)
        decreases todo
      {
        var k :| k in todo;
        todo := todo - {k};
        if metas[k].owner == owner && metas[k].subject == subject && k in dirs {
          assert k in LiveCaches(w, owner, subject);
          assert Pick(LiveCaches(w, owner, subject)) == k;
          metas := metas[k := metas[k].(lastUsedAt := t)];
          Become(WithMeta(w, k, w.metas[k].(lastUsedAt := t), t));
          return Given(k);
        }
      }
      assert LiveCaches(w, owner, subject) == {};
      forall k | k in w.metas && k in w.dirs ensures w.metas[k].owner != owner || w.metas[k].subject != subject {
        assert !IsLive(w, k, owner, subject);
      }
      NewToken(id, t);
      metas := metas[id := Meta(owner, subject, t, t, None)];
      assert used == used[id := t];
      assert W() == WithMeta(NewDir(Reaping(w, cfg, t), id, map[], None, t), id, Meta(owner, subject, t, t, None), t);
      return Given(id);
    }

    /** `resolve`. */
    method Resolve(k: Token, t: int) returns (found: bool)
      modifies this
      ensures found == (k in old(dirs))
      ensures W() == if found then Touched(old(W()), k, t) else old(W()).(now := t)
    {
      now := t;
      if k !in dirs {
        return false;
      }
      dirs := dirs[k := dirs[k].(mtime := t)];
      used, dated := used[k := t], dated - {k};
      return true;
    }

    /** `cache_dirty_files`, after its `cache_meta`. */
    method ListDirty(k: Token) returns (dirty: set<Path>)
      requires k in dirs && k in metas
      ensures dirty == DirtyFiles(dirs[k].tree, metas[k].lastExportAt)
      ensures forall p :: p in dirty <==>
        && p in dirs[k].tree && dirs[k].tree[p].File?
        && (metas[k].lastExportAt == None || metas[k].lastExportAt.value < dirs[k].tree[p].mtime)
    {
      var tree, ref := dirs[k].tree, metas[k].lastExportAt;
      dirty := {};
      var todo := tree.Keys;
      while todo != {}
        invariant todo <= tree.Keys
        invariant dirty == set p | p in DirtyFiles(tree, ref) && p !in todo
        decreases todo
      {
        var p :| p in todo;
        todo := todo - {p};
        if tree[p].File? && (ref == None || tree[p].mtime > ref.value) {
          dirty := dirty + {p};
        }
      }
    }

    /** `_cache_export_tree`: every file is copied out, then the sidecar is stamped. `target` is what was written. */
    method Export(k: Token, reachable: bool, writable: bool, t: int) returns (reply: Reply, target: Tree, count: nat)
      modifies this
      ensures (W(), reply) == Step(old(W()), cfg, Op.Export(k, reachable, writable), t)
      ensures reply == Did(Done(true)) ==>
        && k in old(dirs) && k in exported && exported[k] == BytesOf(target)
        && target == CopiedOut(old(dirs)[k].tree)
        && count == |target|
      ensures reply == Did(Done(true)) <==> reachable && writable && k in old(dirs) && k in old(metas)
      ensures reply == Did(Done(true)) ==>
        && (forall p :: p in target <==> p in old(dirs)[k].tree && old(dirs)[k].tree[p].File?)
        && (forall p :: p in target ==> target[p] == old(dirs)[k].tree[p])
        && metas == old(metas)[k := old(metas)[k].(lastExportAt := Some(t), lastUsedAt := t)]
      ensures reply != Did(Done(true)) ==>
        && metas == old(metas)
        && reply == Did(Failed(if !reachable || (k in old(dirs) && !writable) then Unreachable else NotFound))
      ensures dirs == if reachable && k in old(dirs) then old(dirs)[k := Dir(t, old(dirs)[k].tree)] else old(dirs)
    {
      target, count := map[], 0;
      if !reachable {
        now := t;
        return Did(Failed(Unreachable)), map[], 0;
      }
      ghost var w := W();
      var found := Resolve(k, t);
      if !found {
        return Did(Failed(NotFound)), map[], 0;
      }
      if !writable {
        return Did(Failed(Unreachable)), map[], 0;
      }
      var tree := dirs[k].tree;
      target, count := CopyOut(tree);
      if k !in metas {
        return Did(Failed(NotFound)), target, count;
      }
      metas := metas[k := metas[k].(lastExportAt := Some(t), lastUsedAt := t)];
      exported, late := exported[k := BytesOf(target)], late - {k};
      CopyKeepsBytes(tree);
      assert W() == Marked(Touched(w, k, t), k, t);
      return Did(Done(true)), target, count;
    }

    /** `_cache_close`. */
    method Close(k: Token, force: bool, t: int) returns (reply: Reply)
      modifies this
      ensures (W(), reply) == Step(old(W()), cfg, Op.Close(k, force), t)
      ensures reply == Did(Failed(NotFound)) <==> k !in old(dirs) || k !in old(metas)
      ensures reply == Did(Failed(Dirty)) <==>
        k in old(dirs) && k in old(metas) && !force && IsDirty(old(dirs)[k].tree, old(metas)[k].lastExportAt)
      ensures reply.Did? && (reply.outcome.Done? || reply == Did(Failed(NotFound)) || reply == Did(Failed(Dirty)))
      ensures reply.outcome.Done? ==> dirs == old(dirs) - {k} && metas == old(metas) - {k}
      ensures reply.outcome.Failed? ==>
        metas == old(metas) && dirs == if k in old(dirs) then old(dirs)[k := Dir(t, old(dirs)[k].tree)] else old(dirs)
    {
      ghost var w := W();
      var found := Resolve(k, t);
      if !found || k !in metas {
        return Did(Failed(NotFound));
      }
      var dirty := ListDirty(k);
      assert dirty != {} <==> IsDirty(dirs[k].tree, metas[k].lastExportAt) by {
        if p :| p in dirty {}
      }
      if dirty != {} && !force {
        return Did(Failed(Dirty));
      }
      dirs, metas := dirs - {k}, metas - {k};
      Become(Forget(Touched(w, k, t), {k}));
      return Did(Done(true));
    }

    /** `touch_cache`. */
    method TouchCache(k: Token, t: int) returns (reply: Reply)
      modifies this
      ensures (W(), reply) == Step(old(W()), cfg, Op.TouchCache(k), t)
      ensures k in old(dirs) && k in old(metas) ==>
        && reply == Did(Done(false)) && dirs == old(dirs)[k := Dir(t, old(dirs)[k].tree)]
        && metas == old(metas)[k := old(metas)[k].(lastUsedAt := t)]
      ensures k !in old(dirs) || k !in old(metas) ==> reply == Did(Failed(NotFound)) && metas == old(metas)
    {
      ghost var w := W();
      var found := Resolve(k, t);
      if !found || k !in metas {
        return Did(Failed(NotFound));
      }
      metas := metas[k := metas[k].(lastUsedAt := t)];
      Become(WithMeta(Touched(w, k, t), k, metas[k], t));
      return Did(Done(false));
    }

    /** A DAV request that changes the tree of a cache, as the request asks; the time of last use moves only with a PUT
        that went through. */
    method Change(op: Op, t: int) returns (reply: Reply)
      requires IsTreeOp(op) && Allowed(W(), op)
      modifies this
      ensures (W(), reply) == Step(old(W()), cfg, op, t)
      ensures op.token !in old(dirs) || op.token !in old(metas) ==>
        reply == Did(Failed(NotFound)) && metas == old(metas)
      ensures op.token in old(dirs) && op.token in old(metas) ==>
        var k, tree := op.token, old(dirs)[op.token].tree;
        && reply.Did? && k in dirs && dirs == old(dirs)[k := Dir(t, dirs[k].tree)]
        && (dirs[k].tree, reply.outcome) == (
             match op
             case PutFile(_, p, bytes) => Put(tree, p, bytes, t)
             case DeletePath(_, p) => Delete(tree, p)
             case MakeFolder(_, p) => Mkcol(tree, p)
             case MovePath(_, src, dst, overwrite) => Move(tree, src, dst, overwrite)
             case CopyPath(_, src, dst, overwrite) => Copy(tree, src, dst, overwrite)
             case _ => (tree, Done(false)))
        && metas == if op.PutFile? && reply.outcome.Done? then old(metas)[k := old(metas)[k].(lastUsedAt := t)]
                    else old(metas)
    {
      hide Put, Delete, Mkcol, Move, Copy;
      var k := op.token;
      ghost var w := W();
      assert Step(w, cfg, op, t) == OnCache(w, k, op, t);
      var found := Resolve(k, t);
      if !found || k !in metas {
        return Did(Failed(NotFound));
      }
      var (tree, outcome) := TreeAfter(dirs[k].tree, op, t);
      dirs := dirs[k := dirs[k].(tree := tree)];
      assert W() == WithTree(Touched(w, k, t), k, tree);
      if op.PutFile? && outcome.Done? {
        late := LateAfterPut(W(), k, t);
        metas := metas[k := metas[k].(lastUsedAt := t)];
        assert W() == Written(WithTree(Touched(w, k, t), k, tree), k, t);
      }
      return Did(outcome);
    }
  }

  lemma TwoPasses(
      dirs: map<Token, Dir>, metas: map<Token, Meta>, stale: set<Token>, gone: set<Token>, orphans: set<Token>)
    requires stale !! gone && stale !! metas.Keys && orphans !! dirs.Keys
    ensures dirs - stale - gone == dirs - (stale + gone + orphans)
    ensures metas - gone - orphans == metas - (stale + gone + orphans)
    ensures |stale| + |gone| == |stale + gone|
  {
  }

  lemma SecondPassSeesTheSame(w: World, cfg: Config, t: int)
    ensures var stale := StaleTokens(w.dirs, w.metas, cfg, t);
      && ExpiredTokens(w.dirs - stale, w.metas, cfg, t) == ExpiredTokens(w.dirs, w.metas, cfg, t)
      && OrphanMetas(w.dirs - stale, w.metas, cfg) == OrphanMetas(w.dirs, w.metas, cfg)
  {
    var stale := StaleTokens(w.dirs, w.metas, cfg, t);
    assert forall k :: k in w.metas ==> (k in w.dirs - stale <==> k in w.dirs);
  }

  /** The two passes take disjoint classes, so their order does not matter and their counts add up. */
  lemma ReapInTwo(w: World, cfg: Config, t: int)
    ensures var stale := StaleTokens(w.dirs, w.metas, cfg, t); var mid := w.dirs - stale;
      var gone := ExpiredTokens(mid, w.metas, cfg, t);
      && mid - gone == Reaping(w, cfg, t).dirs &&
           w.metas - gone - OrphanMetas(mid, w.metas, cfg) == Reaping(w, cfg, t).metas
      && |stale| + |gone| == |Reapable(w, cfg, t)|
  {
    var stale, gone, orphans :=
      StaleTokens(w.dirs, w.metas, cfg, t), ExpiredTokens(w.dirs, w.metas, cfg, t), OrphanMetas(w.dirs, w.metas, cfg);
    SecondPassSeesTheSame(w, cfg, t);
    assert stale + gone == Reapable(w, cfg, t) && orphans == Orphans(w, cfg);
    TwoPasses(w.dirs, w.metas, stale, gone, orphans);
  }
}
