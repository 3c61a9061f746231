/** The token store: ephemeral tokens, deliverable caches, reaping, export and the dirty-gated close.

    Time is an argument of every operation and never runs backwards. The store below is what the file system holds, with
    things the program does not keep: the bytes the last export of each cache wrote out, when each token was last used,
    which directories carry the date of an archive, which caches were written to at the instant of their last export,
    and the time. */
module CacheStore {
  import opened Basics
  import opened CacheTree

  type Token(==, !new)

  /** The sidecar file of a deliverable cache. */
  datatype Meta = Meta(owner: string, subject: string, createdAt: int, lastUsedAt: int, lastExportAt: Option<int>)

  datatype Dir = Dir(mtime: int, tree: Tree)

  /** The two lifetimes; zero or less disables the pass. */
  datatype Config = Config(ttl: int, safetyTtl: int)

  /** `dated` are the tokens staged from an archive that sets the date of its own root, until they are next resolved;
      `late` are the caches written to at the instant of their last export, until the next. */
  datatype World = World(
    dirs: map<Token, Dir>, metas: map<Token, Meta>, exported: map<Token, set<Bytes>>, used: map<Token, int>,
    dated: set<Token>, late: set<Token>, now: int)

  datatype Op =
    | Reap
    | Stage(id: Token, tree: Tree, date: Option<int>)
    | Provision(owner: string, subject: string, id: Token)
    | Resolve(token: Token)
    | TouchCache(token: Token)
    | PutFile(token: Token, path: Path, bytes: Bytes)
    | DeletePath(token: Token, path: Path)
    | MakeFolder(token: Token, path: Path)
    | MovePath(token: Token, src: Path, dst: Path, overwrite: bool)
    | CopyPath(token: Token, src: Path, dst: Path, overwrite: bool)
    | Export(token: Token, reachable: bool, writable: bool)
    | Close(token: Token, force: bool)

  datatype Reply = Given(token: Token) | Reaped(count: nat) | Did(outcome: Outcome)

  function Max(a: int, b: int): int { if a < b then b else a }

  // ---------------------------------------------------------------- reaping

  /** An ephemeral token idle for longer than its lifetime. */
  predicate Stale(dirs: map<Token, Dir>, metas: map<Token, Meta>, ttl: int, now: int, k: Token) {
    ttl > 0 && k in dirs && k !in metas && dirs[k].mtime < now - ttl
  }

  /** A cache idle for the whole safety-net lifetime, by its sidecar and by its directory. */
  predicate Expired(dirs: map<Token, Dir>, metas: map<Token, Meta>, ttl: int, now: int, k: Token) {
    ttl > 0 && k in dirs && k in metas && now - Max(metas[k].lastUsedAt, dirs[k].mtime) >= ttl
  }

  predicate Orphan(dirs: map<Token, Dir>, metas: map<Token, Meta>, ttl: int, k: Token) {
    ttl > 0 && k in metas && k !in dirs
  }

  function Reapable(w: World, cfg: Config, now: int): set<Token> {
    set k | k in w.dirs && (Stale(w.dirs, w.metas, cfg.ttl, now, k) || Expired(w.dirs, w.metas, cfg.safetyTtl, now, k))
  }

  function Orphans(w: World, cfg: Config): set<Token> {
    set k | k in w.metas && Orphan(w.dirs, w.metas, cfg.safetyTtl, k)
  }

  function Forget(w: World, gone: set<Token>): World {
    w.(dirs := w.dirs - gone, metas := w.metas - gone, exported := w.exported - gone, used := w.used - gone,
       dated := w.dated - gone, late := w.late - gone)
  }

  function Reaping(w: World, cfg: Config, now: int): World {
    Forget(w, Reapable(w, cfg, now) + Orphans(w, cfg)).(now := now)
  }

  // ---------------------------------------------------------------- one operation

  predicate IsLive(w: World, k: Token, owner: string, subject: string) {
    k in w.metas && k in w.dirs && w.metas[k].owner == owner && w.metas[k].subject == subject
  }

  function LiveCaches(w: World, owner: string, subject: string): set<Token> {
    set k | k in w.metas && IsLive(w, k, owner, subject)
  }

  ghost function Pick(s: set<Token>): (k: Token)
    requires s != {}
    ensures k in s
  {
    var k :| k in s; k
  }

  /** `resolve`: the directory is touched. */
  function Touched(w: World, k: Token, now: int): World
    requires k in w.dirs
  {
    w.(dirs := w.dirs[k := w.dirs[k].(mtime := now)], used := w.used[k := now], dated := w.dated - {k}, now := now)
  }

  function WithMeta(w: World, k: Token, meta: Meta, now: int): World {
    w.(metas := w.metas[k := meta], used := w.used[k := now], now := now)
  }

  function WithTree(w: World, k: Token, tree: Tree): World
    requires k in w.dirs
  {
    w.(dirs := w.dirs[k := w.dirs[k].(tree := tree)])
  }

  /** A new token. An archive with an entry for its own root leaves that entry's date on the directory. */
  function NewDir(w: World, k: Token, tree: Tree, date: Option<int>, now: int): World {
    w.(dirs := w.dirs[k := Dir(if date.Some? then date.value else now, tree)], used := w.used[k := now],
       dated := if date.Some? then w.dated + {k} else w.dated, now := now)
  }

  function DirtyFiles(tree: Tree, ref: Option<int>): set<Path> {
    set p | p in tree && tree[p].File? && (ref.None? || tree[p].mtime > ref.value)
  }

  ghost function BytesOf(tree: Tree): set<Bytes> {
    set p | p in tree && tree[p].File? :: tree[p].bytes
  }

  /** What an operation on the tree of a cache does to that tree. */
  function TreeAfter(tree: Tree, op: Op, now: int): (Tree, Outcome)
    requires op.CopyPath? ==> !(op.src < op.dst)
  {
    match op
    case PutFile(_, p, bytes) => Put(tree, p, bytes, now)
    case DeletePath(_, p) => Delete(tree, p)
    case MakeFolder(_, p) => Mkcol(tree, p)
    case MovePath(_, src, dst, overwrite) => Move(tree, src, dst, overwrite)
    case CopyPath(_, src, dst, overwrite) => Copy(tree, src, dst, overwrite)
    case _ => (tree, Done(false))
  }

  predicate IsTreeOp(op: Op) {
    op.PutFile? || op.DeletePath? || op.MakeFolder? || op.MovePath? || op.CopyPath?
  }

  ghost predicate Allowed(w: World, op: Op) {
    match op
    case Stage(id, tree, _) => id !in w.dirs && id !in w.metas && WellFormed(tree)
    case Provision(_, _, id) => id !in w.dirs && id !in w.metas
    case CopyPath(_, src, dst, _) => !(src < dst)
    case _ => true
  }

  ghost function Step(w: World, cfg: Config, op: Op, now: int): (World, Reply)
    requires Allowed(w, op)
  {
    match op
    case Reap => (Reaping(w, cfg, now), Reaped(|Reapable(w, cfg, now)|))
    case Stage(id, tree, date) => (NewDir(Reaping(w, cfg, now), id, tree, date, now), Given(id))
    case Provision(owner, subject, id) => Provisioned(w, cfg, owner, subject, id, now)
    case Resolve(k) =>
      if k !in w.dirs then (w.(now := now), Did(Failed(NotFound))) else (Touched(w, k, now), Did(Done(false)))
    case Export(k, reachable, writable) => Exported(w, k, reachable, writable, now)
    case TouchCache(k) => OnCache(w, k, op, now)
    case Close(k, force) => OnCache(w, k, op, now)
    case _ => OnCache(w, op.token, op, now)
  }

  ghost function Provisioned(
      w: World, cfg: Config, owner: string, subject: string, id: Token, now: int): (World, Reply)
  {
    if owner == "" then (w.(now := now), Did(Failed(OwnerRequired)))
    else if subject == "" then (w.(now := now), Did(Failed(SubjectRequired)))
    else if LiveCaches(w, owner, subject) != {} then
      var k := Pick(LiveCaches(w, owner, subject));
      (WithMeta(w, k, w.metas[k].(lastUsedAt := now), now), Given(k))
    else
      var r := Reaping(w, cfg, now);
      (WithMeta(NewDir(r, id, map[], None, now), id, Meta(owner, subject, now, now, None), now), Given(id))
  }

  /** An export that went through: the sidecar is stamped. */
  ghost function Marked(w: World, k: Token, now: int): World
    requires k in w.dirs && k in w.metas
  {
    WithMeta(w, k, w.metas[k].(lastExportAt := Some(now), lastUsedAt := now), now)
      .(exported := w.exported[k := BytesOf(w.dirs[k].tree)], late := w.late - {k})
  }

  ghost function Exported(w: World, k: Token, reachable: bool, writable: bool, now: int): (World, Reply) {
    if !reachable then (w.(now := now), Did(Failed(Unreachable)))
    else if k !in w.dirs then (w.(now := now), Did(Failed(NotFound)))
    else
      var t := Touched(w, k, now);
      if !writable then (t, Did(Failed(Unreachable)))
      else if k !in w.metas then (t, Did(Failed(NotFound)))
      else
        (Marked(t, k, now), Did(Done(true)))
  }

  /** A PUT that went through: the cache is touched. */
  function Written(w: World, k: Token, now: int): World
    requires k in w.metas
  {
    WithMeta(w, k, w.metas[k].(lastUsedAt := now), now).(late := LateAfterPut(w, k, now))
  }

  /** Everything that starts from `cache_meta`. */
  ghost function OnCache(w: World, k: Token, op: Op, now: int): (World, Reply)
    requires op.CopyPath? ==> !(op.src < op.dst)
  {
    if k !in w.dirs then (w.(now := now), Did(Failed(NotFound)))
    else
      var t := Touched(w, k, now);
      if k !in w.metas then (t, Did(Failed(NotFound)))
      else if op.TouchCache? then (WithMeta(t, k, w.metas[k].(lastUsedAt := now), now), Did(Done(false)))
      else if op.Close? then
        if DirtyFiles(w.dirs[k].tree, w.metas[k].lastExportAt) != {} && !op.force then (t, Did(Failed(Dirty)))
        else (Forget(t, {k}), Did(Done(true)))
      else
        var (tree, outcome) := TreeAfter(w.dirs[k].tree, op, now);
        var v := WithTree(t, k, tree);
        (if op.PutFile? && outcome.Done? then Written(v, k, now) else v, Did(outcome))
  }

  // ---------------------------------------------------------------- the invariant

  function LastUse(w: World, k: Token): int
    requires k in w.dirs
  {
    if k in w.metas then Max(w.metas[k].lastUsedAt, w.dirs[k].mtime) else w.dirs[k].mtime
  }

  /** The last use of a token is what its reaping looks at, unless an archive set the date of its directory. */
  ghost predicate ClockOk(w: World) {
    && w.used.Keys == w.dirs.Keys
    && w.dated <= w.dirs.Keys - w.metas.Keys
    && (forall k :: k in w.dirs ==> w.used[k] <= w.now)
    && (forall k :: k in w.dirs && k !in w.dated ==> w.dirs[k].mtime <= w.now && w.used[k] == LastUse(w, k))
    && (forall k :: k in w.metas ==> w.metas[k].lastUsedAt <= w.now)
  }

  ghost predicate OneCacheEach(w: World) {
    forall k, l ::
      k in w.metas && l in w.metas && k in w.dirs && l in w.dirs ==>
      w.metas[k].owner == w.metas[l].owner && w.metas[k].subject == w.metas[l].subject ==> k == l
  }

  /** A file that looks clean was written out, byte for byte, by the last export, unless the cache was written to
      late. */
  ghost predicate CleanWasExported(
      tree: Tree, meta: Meta, exported: map<Token, set<Bytes>>, k: Token, late: bool, now: int)
  {
    && (meta.lastExportAt.Some? ==> meta.lastExportAt.value <= now && k in exported)
    && (forall f :: f in Files(tree) ==> f.mtime <= now)
    && (meta.lastExportAt.Some? && !late ==>
          forall f :: f in Files(tree) && f.mtime <= meta.lastExportAt.value ==> f.bytes in exported[k])
  }

  ghost predicate CacheOk(w: World, k: Token)
    requires k in w.dirs && k in w.metas
  {
    CleanWasExported(w.dirs[k].tree, w.metas[k], w.exported, k, k in w.late, w.now)
  }

  ghost predicate TreesOk(w: World) {
    && (forall k :: k in w.dirs ==> WellFormed(w.dirs[k].tree))
    && (forall k :: k in w.dirs && k in w.metas ==> CacheOk(w, k))
  }

  ghost predicate Ok(w: World) {
    ClockOk(w) && OneCacheEach(w) && TreesOk(w)
  }

  lemma TreeOpCarriesFiles(tree: Tree, op: Op, now: int)
    requires op.CopyPath? ==> !(op.src < op.dst)
    ensures forall f ::
      f in Files(TreeAfter(tree, op, now).0) ==> f in Files(tree) || (op.PutFile? && f == File(op.bytes, now))
  {
    match op
    case PutFile(_, p, bytes) => PutWrites(tree, p, bytes, now);
    case DeletePath(_, p) =>
    case MakeFolder(_, p) => MkcolKeepsFiles(tree, p);
    case MovePath(_, src, dst, overwrite) => MoveCarriesFiles(tree, src, dst, overwrite);
    case CopyPath(_, src, dst, overwrite) => CopyCarriesFiles(tree, src, dst, overwrite);
    case _ =>
  }

  lemma TreeOpIsWellFormed(tree: Tree, op: Op, now: int)
    requires WellFormed(tree) && (op.CopyPath? ==> !(op.src < op.dst))
    ensures WellFormed(TreeAfter(tree, op, now).0)
  {
    match op
    case PutFile(_, p, bytes) => PutIsWellFormed(tree, p, bytes, now);
    case DeletePath(_, p) => WithoutIsWellFormed(tree, p);
    case MakeFolder(_, p) => MkcolIsWellFormed(tree, p);
    case MovePath(_, src, dst, overwrite) => MoveIsWellFormed(tree, src, dst, overwrite);
    case CopyPath(_, src, dst, overwrite) => CopyIsWellFormed(tree, src, dst, overwrite);
    case _ =>
  }

  lemma ForgetKeepsOk(w: World, gone: set<Token>, now: int)
    requires Ok(w) && w.now <= now
    ensures Ok(Forget(w, gone).(now := now))
  {
    var v := Forget(w, gone).(now := now);
    assert ClockOk(v);
    forall k | k in v.dirs && k in v.metas ensures CacheOk(v, k) {
      assert CacheOk(w, k);
    }
    assert TreesOk(v);
  }

  lemma TouchedKeepsOk(w: World, k: Token, now: int)
    requires Ok(w) && w.now <= now && k in w.dirs
    ensures Ok(Touched(w, k, now))
  {
    var v := Touched(w, k, now);
    forall l | l in v.dirs && l in v.metas ensures CacheOk(v, l) {
      assert CacheOk(w, l);
    }
  }

  lemma WithMetaKeepsOk(w: World, k: Token, meta: Meta, now: int)
    requires Ok(w) && w.now <= now && k in w.dirs && k in w.metas
    requires meta.owner == w.metas[k].owner && meta.subject == w.metas[k].subject
    requires meta.lastExportAt == w.metas[k].lastExportAt && meta.lastUsedAt == now
    ensures Ok(WithMeta(w, k, meta, now))
  {
    var v := WithMeta(w, k, meta, now);
    forall l | l in v.dirs && l in v.metas ensures CacheOk(v, l) {
      assert CacheOk(w, l);
    }
  }

  /** Old files in new places need no care. */
  lemma OldFilesKeepOk(w: World, k: Token, tree: Tree)
    requires Ok(w) && k in w.dirs && k in w.metas && WellFormed(tree) && Files(tree) <= Files(w.dirs[k].tree)
    ensures Ok(WithTree(w, k, tree))
  {
    var v := WithTree(w, k, tree);
    forall l | l in v.dirs && l in v.metas ensures CacheOk(v, l) {
      assert CacheOk(w, l);
    }
  }

  function LateAfterPut(w: World, k: Token, now: int): set<Token>
    requires k in w.metas
  {
    if w.metas[k].lastExportAt == Some(now) then w.late + {k} else w.late
  }

  /** A file written now is younger than the last export, or the cache is written to late. */
  lemma NewTreeKeepsOk(w: World, k: Token, tree: Tree, bytes: Bytes)
    requires Ok(w) && k in w.dirs && k in w.metas && WellFormed(tree)
    requires Files(tree) <= Files(w.dirs[k].tree) + {File(bytes, w.now)}
    ensures Ok(WithTree(w, k, tree).(late := LateAfterPut(w, k, w.now)))
  {
    var v := WithTree(w, k, tree).(late := LateAfterPut(w, k, w.now));
    forall l | l in v.dirs && l in v.metas ensures CacheOk(v, l) {
      assert CacheOk(w, l);
    }
  }

  lemma NewFileKeepsOk(w: World, k: Token, tree: Tree, bytes: Bytes)
    requires Ok(w) && k in w.dirs && k in w.metas && WellFormed(tree)
    requires Files(tree) <= Files(w.dirs[k].tree) + {File(bytes, w.now)}
    ensures Ok(Written(WithTree(w, k, tree), k, w.now))
  {
    hide Ok, WellFormed, Files;
    NewTreeKeepsOk(w, k, tree, bytes);
    var t := WithTree(w, k, tree).(late := LateAfterPut(w, k, w.now));
    OkTime(w, k, tree);
    WithMetaKeepsOk(t, k, w.metas[k].(lastUsedAt := w.now), w.now);
  }

  lemma OkTime(w: World, k: Token, tree: Tree)
    requires k in w.dirs
    ensures WithTree(w, k, tree).now == w.now && WithTree(w, k, tree).metas == w.metas
  {
  }

  lemma TreeStepKeepsOk(w: World, k: Token, op: Op, now: int)
    requires Ok(w) && w.now <= now && k in w.dirs && k in w.metas && IsTreeOp(op)
    requires op.CopyPath? ==> !(op.src < op.dst)
    ensures Ok(OnCache(w, k, op, now).0)
  {
    var t := Touched(w, k, now);
    var (tree, outcome) := TreeAfter(w.dirs[k].tree, op, now);
    TouchedKeepsOk(w, k, now);
    TreeOpCarriesFiles(w.dirs[k].tree, op, now);
    TreeOpIsWellFormed(w.dirs[k].tree, op, now);
    RefusedPutWritesNothing(w.dirs[k].tree, op, now);
    hide TreeAfter, Ok, WellFormed, Files, Written, WithTree;
    if op.PutFile? && outcome.Done? {
      NewFileKeepsOk(t, k, tree, op.bytes);
    } else {
      OldFilesKeepOk(t, k, tree);
    }
  }

  lemma RefusedPutWritesNothing(tree: Tree, op: Op, now: int)
    requires op.CopyPath? ==> !(op.src < op.dst)
    ensures op.PutFile? && TreeAfter(tree, op, now).1.Failed? ==> TreeAfter(tree, op, now).0 == tree
  {
  }

  lemma NewDirKeepsOk(w: World, k: Token, tree: Tree, date: Option<int>, now: int)
    requires Ok(w) && w.now <= now && k !in w.dirs && k !in w.metas && WellFormed(tree)
    ensures Ok(NewDir(w, k, tree, date, now))
  {
    var v := NewDir(w, k, tree, date, now);
    forall l | l in v.dirs && l in v.metas ensures CacheOk(v, l) {
      assert CacheOk(w, l);
    }
  }

  /** A sidecar is written for a directory without one; it is the only cache of its owner and subject. */
  lemma NewMetaKeepsOk(w: World, k: Token, owner: string, subject: string)
    requires Ok(w) && k in w.dirs && k !in w.metas && k !in w.dated && w.dirs[k].tree == map[]
    requires w.dirs[k].mtime == w.now
    requires LiveCaches(w, owner, subject) == {}
    ensures Ok(WithMeta(w, k, Meta(owner, subject, w.now, w.now, None), w.now))
  {
    var v := WithMeta(w, k, Meta(owner, subject, w.now, w.now, None), w.now);
    forall l | l in v.dirs && l in v.metas ensures CacheOk(v, l) {
      if l != k { assert CacheOk(w, l); }
    }
    forall l | l in v.metas && l != k && l in v.dirs
      ensures v.metas[l].owner != owner || v.metas[l].subject != subject
    {
      assert l !in LiveCaches(w, owner, subject);
    }
  }

  lemma MintKeepsOk(w: World, cfg: Config, owner: string, subject: string, id: Token, now: int)
    requires Ok(w) && w.now <= now && id !in w.dirs && id !in w.metas && LiveCaches(w, owner, subject) == {}
    ensures Ok(WithMeta(NewDir(Reaping(w, cfg, now), id, map[], None, now), id, Meta(owner, subject, now, now, None),
      now))
  {
    hide Orphans, Reapable;
    var r := Reaping(w, cfg, now);
    ForgetKeepsOk(w, Reapable(w, cfg, now) + Orphans(w, cfg), now);
    assert id !in r.dated;
    hide Ok;
    var d := NewDir(r, id, map[], None, now);
    NewDirKeepsOk(r, id, map[], None, now);
    assert LiveCaches(d, owner, subject) <= LiveCaches(w, owner, subject);
    NewMetaKeepsOk(d, id, owner, subject);
  }

  lemma ProvisionKeepsOk(w: World, cfg: Config, owner: string, subject: string, id: Token, now: int)
    requires Ok(w) && w.now <= now && id !in w.dirs && id !in w.metas
    ensures Ok(Provisioned(w, cfg, owner, subject, id, now).0)
  {
    hide Ok, Reaping;
    ForgetKeepsOk(w, {}, now);
    assert Forget(w, {}).(now := now) == w.(now := now);
    if owner != "" && subject != "" {
      var live := LiveCaches(w, owner, subject);
      if live != {} {
        var k := Pick(live);
        WithMetaKeepsOk(w, k, w.metas[k].(lastUsedAt := now), now);
      } else {
        MintKeepsOk(w, cfg, owner, subject, id, now);
      }
    }
  }

  lemma MarkKeepsOk(w: World, k: Token)
    requires Ok(w) && k in w.dirs && k in w.metas
    ensures Ok(Marked(w, k, w.now))
  {
    var v := Marked(w, k, w.now);
    forall l | l in v.dirs && l in v.metas ensures CacheOk(v, l) {
      assert CacheOk(w, l);
    }
  }

  lemma ExportKeepsOk(w: World, k: Token, reachable: bool, writable: bool, now: int)
    requires Ok(w) && w.now <= now
    ensures Ok(Exported(w, k, reachable, writable, now).0)
  {
    hide Ok, BytesOf, Marked;
    ForgetKeepsOk(w, {}, now);
    assert Forget(w, {}).(now := now) == w.(now := now);
    if k in w.dirs {
      TouchedKeepsOk(w, k, now);
      if k in w.metas {
        MarkKeepsOk(Touched(w, k, now), k);
      }
    }
  }

  lemma OnCacheKeepsOk(w: World, k: Token, op: Op, now: int)
    requires Ok(w) && w.now <= now && (IsTreeOp(op) || op.TouchCache? || op.Close?)
    requires op.CopyPath? ==> !(op.src < op.dst)
    ensures Ok(OnCache(w, k, op, now).0)
  {
    hide TreeAfter, ClockOk, OneCacheEach, WellFormed, Files;
    ForgetKeepsOk(w, {}, now);
    assert Forget(w, {}).(now := now) == w.(now := now);
    if k in w.dirs {
      var t := Touched(w, k, now);
      TouchedKeepsOk(w, k, now);
      if k in w.metas {
        if op.TouchCache? {
          WithMetaKeepsOk(t, k, w.metas[k].(lastUsedAt := now), now);
        } else if op.Close? {
          ForgetKeepsOk(t, {k}, now);
        } else {
          TreeStepKeepsOk(w, k, op, now);
        }
      }
    }
  }

  lemma StepKeepsOk(w: World, cfg: Config, op: Op, now: int)
    requires Ok(w) && w.now <= now && Allowed(w, op)
    ensures Ok(Step(w, cfg, op, now).0) && Step(w, cfg, op, now).0.now == now
  {
    hide Ok, Reapable, Orphans, TreeAfter, BytesOf;
    ForgetKeepsOk(w, {}, now);
    ForgetKeepsOk(w, Reapable(w, cfg, now) + Orphans(w, cfg), now);
    match op
    case Reap =>
    case Stage(id, tree, date) => NewDirKeepsOk(Reaping(w, cfg, now), id, tree, date, now);
    case Provision(owner, subject, id) => ProvisionKeepsOk(w, cfg, owner, subject, id, now);
    case Resolve(k) => if k in w.dirs { TouchedKeepsOk(w, k, now); } else { assert Forget(w, {}) == w; }
    case Export(k, reachable, writable) => ExportKeepsOk(w, k, reachable, writable, now);
    case _ => OnCacheKeepsOk(w, op.token, op, now);
  }

  // ---------------------------------------------------------------- runs

  datatype Event = Event(op: Op, at: int)

  /** A sequential run: one operation after the other, none earlier than the last. */
  ghost predicate CanRun(w: World, cfg: Config, events: seq<Event>)
    decreases |events|
  {
    events == [] ||
    (w.now <= events[0].at && Allowed(w, events[0].op) &&
      CanRun(Step(w, cfg, events[0].op, events[0].at).0, cfg, events[1..]))
  }

  ghost function Run(w: World, cfg: Config, events: seq<Event>): World
    requires CanRun(w, cfg, events)
    decreases |events|
  {
    if events == [] then w else Run(Step(w, cfg, events[0].op, events[0].at).0, cfg, events[1..])
  }

  function Empty(): World { World(map[], map[], map[], map[], {}, {}, 0) }

  lemma {:induction false} RunKeepsOk(w: World, cfg: Config, events: seq<Event>)
    requires Ok(w) && CanRun(w, cfg, events)
    ensures Ok(Run(w, cfg, events))
    decreases |events|
  {
    if events != [] {
      StepKeepsOk(w, cfg, events[0].op, events[0].at);
      RunKeepsOk(Step(w, cfg, events[0].op, events[0].at).0, cfg, events[1..]);
    }
  }

  lemma EmptyIsOk()
    ensures Ok(Empty())
  {
  }

  /** The bytes the last export of a cache wrote out; none before the first. */
  ghost function LastExport(w: World, k: Token): set<Bytes> {
    if k in w.exported then w.exported[k] else {}
  }

  lemma StepOnCache(w: World, cfg: Config, op: Op, now: int)
    requires Allowed(w, op) && (IsTreeOp(op) || op.TouchCache? || op.Close?)
    ensures Step(w, cfg, op, now) == OnCache(w, op.token, op, now)
  {
    hide OnCache, Reaping, Provisioned, Exported, Touched;
  }
}
