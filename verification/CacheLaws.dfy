/** What every run of the token store guarantees: the dirty gate, the sweeps and the one cache for each owner and
    subject. */
module CacheLaws {
  import opened Basics
  import opened CacheTree
  import opened CacheStore

  // ---------------------------------------------------------------- the dirty gate

  /** After any run, a close that succeeds without force discards only bytes the last export wrote out, unless the cache
      was written to at the very instant of that export. */
  lemma CloseDiscardsOnlyExportedBytes(cfg: Config, events: seq<Event>, k: Token, now: int)
    requires CanRun(Empty(), cfg, events) && k !in Run(Empty(), cfg, events).late
    requires Step(Run(Empty(), cfg, events), cfg, Close(k, false), now).1 == Did(Done(true))
    ensures var w := Run(Empty(), cfg, events);
      && k in w.dirs && BytesOf(w.dirs[k].tree) <= LastExport(w, k)
      && k !in Step(w, cfg, Close(k, false), now).0.dirs
  {
    EmptyIsOk();
    RunKeepsOk(Empty(), cfg, events);
    var w := Run(Empty(), cfg, events);
    assert CacheOk(w, k);
    var tree := w.dirs[k].tree;
    var ref := w.metas[k].lastExportAt;
    forall p | p in tree && tree[p].File? ensures tree[p].bytes in LastExport(w, k) {
      assert p !in DirtyFiles(tree, ref);
      assert tree[p] in Files(tree);
    }
  }

  /** No PUT to a cache falls on the instant of that cache's last export. */
  predicate Apart(w: World, op: Op, now: int) {
    op.PutFile? && op.token in w.metas && op.token in w.dirs ==> w.metas[op.token].lastExportAt != Some(now)
  }

  ghost predicate PutsApart(w: World, cfg: Config, events: seq<Event>)
    requires CanRun(w, cfg, events)
    decreases |events|
  {
    events == [] ||
    (Apart(w, events[0].op, events[0].at) && PutsApart(Step(w, cfg, events[0].op, events[0].at).0, cfg, events[1..]))
  }

  lemma ApartIsNotLate(w: World, cfg: Config, op: Op, now: int)
    requires Allowed(w, op) && Apart(w, op, now) && w.late == {}
    ensures Step(w, cfg, op, now).0.late == {}
  {
    hide TreeAfter, Reapable, Orphans, BytesOf, LiveCaches;
    if IsTreeOp(op) || op.TouchCache? || op.Close? {
      StepOnCache(w, cfg, op, now);
      hide Step;
    }
  }

  lemma {:induction false} PutsApartAreNotLate(w: World, cfg: Config, events: seq<Event>)
    requires CanRun(w, cfg, events) && PutsApart(w, cfg, events) && w.late == {}
    ensures Run(w, cfg, events).late == {}
    decreases |events|
  {
    if events != [] {
      ApartIsNotLate(w, cfg, events[0].op, events[0].at);
      hide Step;
      PutsApartAreNotLate(Step(w, cfg, events[0].op, events[0].at).0, cfg, events[1..]);
    }
  }

  /** Each operation is later than the one before. */
  predicate Increasing(from: int, events: seq<Event>)
    decreases |events|
  {
    events == [] || (from < events[0].at && Increasing(events[0].at, events[1..]))
  }

  lemma {:induction false} IncreasingIsApart(w: World, cfg: Config, events: seq<Event>)
    requires Ok(w) && CanRun(w, cfg, events) && Increasing(w.now, events)
    ensures PutsApart(w, cfg, events)
    decreases |events|
  {
    if events != [] {
      var op, now := events[0].op, events[0].at;
      StepKeepsOk(w, cfg, op, now);
      if op.PutFile? && op.token in w.metas { ExportsArePast(w, op.token); }
      hide Step, Ok;
      IncreasingIsApart(Step(w, cfg, op, now).0, cfg, events[1..]);
    }
  }

  lemma ExportsArePast(w: World, k: Token)
    requires Ok(w) && k in w.metas
    ensures k in w.dirs && w.metas[k].lastExportAt.Some? ==> w.metas[k].lastExportAt.value <= w.now
  {
    if k in w.dirs { assert CacheOk(w, k); }
  }

  /** So the gate is sound in every run in which no PUT meets the instant of an export... */
  lemma CloseIsSafeWhenPutsAreApart(cfg: Config, events: seq<Event>, k: Token, now: int)
    requires CanRun(Empty(), cfg, events) && PutsApart(Empty(), cfg, events)
    requires Step(Run(Empty(), cfg, events), cfg, Close(k, false), now).1 == Did(Done(true))
    ensures var w := Run(Empty(), cfg, events); k in w.dirs && BytesOf(w.dirs[k].tree) <= LastExport(w, k)
  {
    PutsApartAreNotLate(Empty(), cfg, events);
    CloseDiscardsOnlyExportedBytes(cfg, events, k, now);
  }

  /** ... and so in every run in which time moves on between operations. */
  lemma CloseIsSafeWhenTimeMovesOn(cfg: Config, events: seq<Event>, k: Token, now: int)
    requires CanRun(Empty(), cfg, events) && Increasing(0, events)
    requires Step(Run(Empty(), cfg, events), cfg, Close(k, false), now).1 == Did(Done(true))
    ensures var w := Run(Empty(), cfg, events); k in w.dirs && BytesOf(w.dirs[k].tree) <= LastExport(w, k)
  {
    EmptyIsOk();
    IncreasingIsApart(Empty(), cfg, events);
    CloseIsSafeWhenPutsAreApart(cfg, events, k, now);
  }

  // ---------------------------------------------------------------- exactly when a PUT defeats the gate

  lemma PutThenIs(w: World, cfg: Config, k: Token, p: Path, bytes: Bytes, now: int)
    requires k in w.dirs && k in w.metas && Put(w.dirs[k].tree, p, bytes, now).1.Done?
    ensures var v := Step(w, cfg, PutFile(k, p, bytes), now).0;
      && k in v.dirs && k in v.metas && v.dirs[k].tree == Put(w.dirs[k].tree, p, bytes, now).0
      && v.metas[k].lastExportAt == w.metas[k].lastExportAt && v.exported == w.exported
  {
    StepOnCache(w, cfg, PutFile(k, p, bytes), now);
    hide Step, Put;
  }

  lemma CloseThenIs(w: World, cfg: Config, k: Token, now: int)
    requires k in w.dirs && k in w.metas
    ensures Step(w, cfg, Close(k, false), now).1 == Did(Done(true)) <==>
      DirtyFiles(w.dirs[k].tree, w.metas[k].lastExportAt) == {}
  {
    StepOnCache(w, cfg, Close(k, false), now);
    hide Step, DirtyFiles;
  }

  lemma PutIsThere(tree: Tree, p: Path, bytes: Bytes, now: int)
    requires Put(tree, p, bytes, now).1.Done?
    ensures p in Put(tree, p, bytes, now).0 && Put(tree, p, bytes, now).0[p] == File(bytes, now)
    ensures bytes in BytesOf(Put(tree, p, bytes, now).0)
  {
    var v := Put(tree, p, bytes, now).0;
    assert p in v;
  }

  lemma NothingDirtyAt(tree: Tree, now: int)
    requires forall f :: f in Files(tree) ==> f.mtime <= now
    ensures DirtyFiles(tree, Some(now)) == {}
  {
    forall p | p in tree && tree[p].File? ensures tree[p].mtime <= now {
      assert tree[p] in Files(tree);
    }
  }

  lemma BytesComeFromFiles(tree: Tree, known: set<Bytes>)
    requires forall f :: f in Files(tree) ==> f.bytes in known
    ensures BytesOf(tree) <= known
  {
    forall p | p in tree && tree[p].File? ensures tree[p].bytes in known {
      assert tree[p] in Files(tree);
    }
  }

  /** The cache was sound, and a PUT goes through. A close right after discards bytes that were never exported if and
      only if the PUT falls on the instant of the last export and its bytes were not part of that. */
  lemma PutDefeatsTheGateIff(w: World, cfg: Config, k: Token, p: Path, bytes: Bytes, now: int, later: int)
    requires Ok(w) && w.now <= now && k in w.dirs && k in w.metas && k !in w.late
    requires Put(w.dirs[k].tree, p, bytes, now).1.Done?
    ensures var v := Step(w, cfg, PutFile(k, p, bytes), now).0;
      (Step(v, cfg, Close(k, false), later).1 == Did(Done(true)) && !(BytesOf(v.dirs[k].tree) <= LastExport(v, k))) <==>
        (w.metas[k].lastExportAt == Some(now) && bytes !in LastExport(w, k))
  {
    var v := Step(w, cfg, PutFile(k, p, bytes), now).0;
    var tree, ref := w.dirs[k].tree, w.metas[k].lastExportAt;
    var after := Put(tree, p, bytes, now).0;
    assert CacheOk(w, k);
    PutThenIs(w, cfg, k, p, bytes, now);
    CloseThenIs(v, cfg, k, later);
    PutWrites(tree, p, bytes, now);
    PutIsThere(tree, p, bytes, now);
    hide Step, Put, BytesOf, Files, Ok;
    if ref == Some(now) {
      NothingDirtyAt(after, now);
      if bytes in LastExport(w, k) { BytesComeFromFiles(after, LastExport(w, k)); }
    } else {
      assert p in DirtyFiles(after, ref);
    }
  }

  /** The gate opens: right after an export the cache is clean. */
  lemma ExportThenClose(cfg: Config, events: seq<Event>, k: Token, now: int, later: int)
    requires CanRun(Empty(), cfg, events) && Run(Empty(), cfg, events).now <= now <= later
    requires Step(Run(Empty(), cfg, events), cfg, Export(k, true, true), now).1 == Did(Done(true))
    ensures var v := Step(Run(Empty(), cfg, events), cfg, Export(k, true, true), now).0;
      Step(v, cfg, Close(k, false), later).1 == Did(Done(true))
  {
    EmptyIsOk();
    RunKeepsOk(Empty(), cfg, events);
    var w := Run(Empty(), cfg, events);
    assert CacheOk(w, k);
    var v := Step(w, cfg, Export(k, true, true), now).0;
    assert k in v.dirs && k in v.metas && v.dirs[k].tree == w.dirs[k].tree && v.metas[k].lastExportAt == Some(now);
    NothingDirtyAt(w.dirs[k].tree, now);
    CloseThenIs(v, cfg, k, later);
  }

  // ---------------------------------------------------------------- sweeps

  /** Not used for the whole lifetime of its own class. */
  ghost predicate Unused(w: World, cfg: Config, now: int, k: Token)
    requires k in w.used
  {
    if k in w.metas then cfg.safetyTtl > 0 && now - w.used[k] >= cfg.safetyTtl
    else cfg.ttl > 0 && now - w.used[k] > cfg.ttl
  }

  /** A sweep removes a token exactly when it was not used for the whole lifetime of its own class, provided that no
      archive set the date of its directory, or that it was resolved since. */
  lemma ReapTakesExactlyTheUnused(w: World, cfg: Config, now: int, k: Token)
    requires Ok(w) && w.now <= now && k in w.dirs && k !in w.dated
    ensures k !in Reaping(w, cfg, now).dirs <==> Unused(w, cfg, now, k)
    ensures k in Reaping(w, cfg, now).dirs ==>
      Reaping(w, cfg, now).dirs[k] == w.dirs[k] && (k in w.metas ==> k in Reaping(w, cfg, now).metas)
  {
  }

  /** What a token whose directory was dated is known by. */
  ghost predicate StaysDated(w: World, v: World, k: Token) {
    && k in w.dirs && k in v.dirs && v.dirs[k] == w.dirs[k] && k in v.dated
    && k in w.used && k in v.used && v.used[k] == w.used[k]
  }

  /** What a sweep looks at for a token whose directory an archive dated. */
  lemma ReapTakesTheDated(w: World, cfg: Config, now: int, k: Token)
    requires Ok(w) && w.now <= now && k in w.dated
    ensures k in w.dirs && (k !in Reaping(w, cfg, now).dirs <==> cfg.ttl > 0 && w.dirs[k].mtime < now - cfg.ttl)
    ensures k in Reaping(w, cfg, now).dirs ==> StaysDated(w, Reaping(w, cfg, now), k)
  {
  }

  /** The operation names this token, to use it or to mint it. */
  predicate Addresses(op: Op, k: Token) {
    match op
    case Reap => false
    case Stage(id, _, _) => id == k
    case Provision(_, _, id) => id == k
    case _ => op.token == k
  }

  lemma CacheOpKeepsOthers(w: World, k: Token, op: Op, now: int, l: Token)
    requires (op.CopyPath? ==> !(op.src < op.dst)) && k != l && l in w.dirs
    ensures var v := OnCache(w, k, op, now).0;
      && l in v.dirs && v.dirs[l] == w.dirs[l] && (l in v.metas <==> l in w.metas)
      && (l in w.dated <==> l in v.dated) && (l in w.used ==> l in v.used && v.used[l] == w.used[l])
  {
    hide TreeAfter;
  }

  lemma ProvisionKeepsDated(w: World, cfg: Config, owner: string, subject: string, id: Token, now: int, k: Token)
    requires Ok(w) && w.now <= now && k in w.dated && id != k
    requires k in Provisioned(w, cfg, owner, subject, id, now).0.dirs
    ensures StaysDated(w, Provisioned(w, cfg, owner, subject, id, now).0, k)
  {
    ReapTakesTheDated(w, cfg, now, k);
    hide Reaping;
  }

  /** Nobody addressing it, a dated token keeps its date for as long as it is there. */
  lemma DateStays(w: World, cfg: Config, op: Op, now: int, k: Token)
    requires Ok(w) && w.now <= now && Allowed(w, op) && k in w.dated && !Addresses(op, k)
    requires k in Step(w, cfg, op, now).0.dirs
    ensures StaysDated(w, Step(w, cfg, op, now).0, k)
  {
    if IsTreeOp(op) || op.TouchCache? || op.Close? {
      assert k in w.dirs && k in w.used;
      StepOnCache(w, cfg, op, now);
      hide Step, OnCache;
      CacheOpKeepsOthers(w, op.token, op, now, k);
    } else if op.Provision? {
      hide Reaping, OnCache, Provisioned;
      ProvisionKeepsDated(w, cfg, op.owner, op.subject, op.id, now, k);
    } else if op.Export? {
      assert k in w.dirs && k in w.used;
      ExportKeepsDated(w, op.token, op.reachable, op.writable, now, k);
    } else if op.Resolve? {
      assert k in w.dirs && k in w.used;
    } else {
      ReapTakesTheDated(w, cfg, now, k);
      hide Reaping;
    }
  }

  lemma ExportKeepsDated(w: World, l: Token, reachable: bool, writable: bool, now: int, k: Token)
    requires k in w.dirs && k in w.used && k in w.dated && l != k
    ensures StaysDated(w, Exported(w, l, reachable, writable, now).0, k)
  {
    hide BytesOf;
  }

  lemma {:induction false} DateStaysOverRuns(w: World, cfg: Config, events: seq<Event>, k: Token)
    requires Ok(w) && CanRun(w, cfg, events) && k in w.dated
    requires (forall e :: e in events ==> !Addresses(e.op, k)) && k in Run(w, cfg, events).dirs
    ensures StaysDated(w, Run(w, cfg, events), k)
    decreases |events|
  {
    if events == [] {
      assert k in w.dirs && k in w.used;
    } else {
      var op, now := events[0].op, events[0].at;
      var v := Step(w, cfg, op, now).0;
      assert events[0] in events;
      StepKeepsOk(w, cfg, op, now);
      GoneStaysGone(v, cfg, events[1..], k);
      DateStays(w, cfg, op, now, k);
      hide Step, Ok;
      DateStaysOverRuns(v, cfg, events[1..], k);
    }
  }

  lemma StepMintsOnlyItsOwn(w: World, cfg: Config, op: Op, now: int, k: Token)
    requires Allowed(w, op) && !Addresses(op, k) && k !in w.dirs
    ensures k !in Step(w, cfg, op, now).0.dirs
  {
    hide TreeAfter, Reapable, Orphans, BytesOf;
    if IsTreeOp(op) || op.TouchCache? || op.Close? {
      StepOnCache(w, cfg, op, now);
      hide Step;
    }
  }

  /** A token that is gone does not come back unless it is minted again. */
  lemma {:induction false} GoneStaysGone(w: World, cfg: Config, events: seq<Event>, k: Token)
    requires CanRun(w, cfg, events) && forall e :: e in events ==> !Addresses(e.op, k)
    ensures k in Run(w, cfg, events).dirs ==> k in w.dirs
    decreases |events|
  {
    if events != [] && k !in w.dirs {
      assert events[0] in events;
      StepMintsOnlyItsOwn(w, cfg, events[0].op, events[0].at, k);
      hide Step;
      GoneStaysGone(Step(w, cfg, events[0].op, events[0].at).0, cfg, events[1..], k);
    }
  }

  /** A token staged from an archive that dates its own root, and not resolved since, is swept by that date and not by
      its use: early, that is within its lifetime, exactly when the date lies more than a lifetime back. */
  lemma StagedTokenIsSweptByItsDate(
      w: World, cfg: Config, k: Token, tree: Tree, date: int, at: int, events: seq<Event>, now: int)
    requires Ok(w) && w.now <= at && Allowed(w, Stage(k, tree, Some(date)))
    requires var v := Step(w, cfg, Stage(k, tree, Some(date)), at).0;
      CanRun(v, cfg, events) && Run(v, cfg, events).now <= now && k in Run(v, cfg, events).dirs
    requires forall e :: e in events ==> !Addresses(e.op, k)
    ensures var u := Run(Step(w, cfg, Stage(k, tree, Some(date)), at).0, cfg, events);
      && k in u.used && u.used[k] == at
      && (k !in Reaping(u, cfg, now).dirs <==> cfg.ttl > 0 && date < now - cfg.ttl)
      && (k !in Reaping(u, cfg, now).dirs && !Unused(u, cfg, now, k) <==>
           cfg.ttl > 0 && date < now - cfg.ttl && now - at <= cfg.ttl)
  {
    var v := Step(w, cfg, Stage(k, tree, Some(date)), at).0;
    StepKeepsOk(w, cfg, Stage(k, tree, Some(date)), at);
    assert k in v.dated && v.dirs[k].mtime == date && v.used[k] == at;
    hide Step;
    DateStaysOverRuns(v, cfg, events, k);
    var u := Run(v, cfg, events);
    RunKeepsOk(v, cfg, events);
    ReapTakesTheDated(u, cfg, now, k);
    assert k !in u.metas;
  }

  /** Such a case, at the default lifetimes: staged at 10000 from an archive dated 0, and swept one second later. */
  lemma FreshlyStagedIsSwept(k: Token)
    ensures var cfg := Config(3600, 604800);
      var v := Step(Empty(), cfg, Stage(k, map[], Some(0)), 10000).0;
      && k in v.dirs && k in v.used && !Unused(v, cfg, 10001, k)
      && k !in Step(v, cfg, Reap, 10001).0.dirs
  {
  }

  // ---------------------------------------------------------------- nothing else removes a token

  /** A sweep at this time takes the token. */
  ghost predicate Swept(w: World, cfg: Config, now: int, k: Token)
    requires k in w.dirs && k in w.used
  {
    if k in w.dated then cfg.ttl > 0 && w.dirs[k].mtime < now - cfg.ttl else Unused(w, cfg, now, k)
  }

  lemma CacheOpKeepsTokens(w: World, k: Token, op: Op, now: int, l: Token)
    requires (op.CopyPath? ==> !(op.src < op.dst)) && l in w.dirs && !(op.Close? && k == l)
    ensures l in OnCache(w, k, op, now).0.dirs
  {
    hide TreeAfter;
  }

  lemma ProvisionKeepsTokens(w: World, cfg: Config, owner: string, subject: string, id: Token, now: int, k: Token)
    requires k in w.dirs && k in Reaping(w, cfg, now).dirs
    ensures k in Provisioned(w, cfg, owner, subject, id, now).0.dirs
  {
    hide Reaping, LiveCaches;
  }

  lemma ExportKeepsTokens(w: World, l: Token, reachable: bool, writable: bool, now: int, k: Token)
    requires k in w.dirs
    ensures k in Exported(w, l, reachable, writable, now).0.dirs
  {
    hide BytesOf;
  }

  predicate Sweeps(op: Op) {
    op.Reap? || op.Stage? || op.Provision?
  }

  lemma SweepKeepsTokens(w: World, cfg: Config, op: Op, now: int, k: Token)
    requires Allowed(w, op) && Sweeps(op) && k in w.dirs && k in Reaping(w, cfg, now).dirs
    ensures k in Step(w, cfg, op, now).0.dirs
  {
    hide OnCache, Reaping, WellFormed, Provisioned, Exported;
    if op.Provision? {
      ProvisionKeepsTokens(w, cfg, op.owner, op.subject, op.id, now, k);
    }
  }

  /** Every operation keeps every token, but for a close of that token and for a sweep, alone or before a new token,
      that takes it. */
  lemma TokensStayUnlessClosedOrSwept(w: World, cfg: Config, op: Op, now: int, k: Token)
    requires Ok(w) && w.now <= now && Allowed(w, op) && k in w.dirs
    requires !(op.Close? && op.token == k) && !(Sweeps(op) && Swept(w, cfg, now, k))
    ensures k in Step(w, cfg, op, now).0.dirs
  {
    if Sweeps(op) {
      if k in w.dated { ReapTakesTheDated(w, cfg, now, k); } else { ReapTakesExactlyTheUnused(w, cfg, now, k); }
      SweepKeepsTokens(w, cfg, op, now, k);
    } else if op.Export? {
      ExportKeepsTokens(w, op.token, op.reachable, op.writable, now, k);
    } else if !op.Resolve? {
      StepOnCache(w, cfg, op, now);
      hide Step, OnCache;
      CacheOpKeepsTokens(w, op.token, op, now, k);
    }
  }

  // ---------------------------------------------------------------- one cache for each owner and subject

  /** A provisioning gives a live cache of that owner and subject, used now: the one there was, otherwise as it was, or
      a new one without files that was never exported. */
  lemma ProvisionGivesLive(w: World, cfg: Config, owner: string, subject: string, id: Token, now: int)
      returns (k: Token)
    requires Ok(w) && w.now <= now && owner != "" && subject != "" && id !in w.dirs && id !in w.metas
    ensures var (v, reply) := Step(w, cfg, Provision(owner, subject, id), now);
      && reply == Given(k) && IsLive(v, k, owner, subject) && v.metas[k].lastUsedAt == now
      && (IsLive(w, k, owner, subject) ==> v.dirs == w.dirs && v.metas == w.metas[k := w.metas[k].(lastUsedAt := now)])
      && (!IsLive(w, k, owner, subject) ==>
            && k == id && (forall l :: !IsLive(w, l, owner, subject))
            && v.dirs[k] == Dir(now, map[]) && v.metas[k].createdAt == now && v.metas[k].lastExportAt == None)
  {
    if LiveCaches(w, owner, subject) != {} {
      k := Pick(LiveCaches(w, owner, subject));
    } else {
      k := id;
      forall l ensures !IsLive(w, l, owner, subject) {
        assert l !in LiveCaches(w, owner, subject);
      }
    }
    hide Reaping, Ok;
  }

  lemma LiveIsTheOne(w: World, k: Token, owner: string, subject: string)
    requires Ok(w) && IsLive(w, k, owner, subject)
    ensures LiveCaches(w, owner, subject) == {k} && Pick(LiveCaches(w, owner, subject)) == k
  {
    assert k in LiveCaches(w, owner, subject);
  }

  /** No event of the run closes the token, and none sweeps it. */
  ghost predicate Spares(w: World, cfg: Config, events: seq<Event>, k: Token)
    requires CanRun(w, cfg, events)
    decreases |events|
  {
    events == [] ||
    var op, now := events[0].op, events[0].at;
    && !(op.Close? && op.token == k)
    && !(Sweeps(op) && k in w.dirs && k in w.used && Swept(w, cfg, now, k))
    && Spares(Step(w, cfg, op, now).0, cfg, events[1..], k)
  }

  lemma CacheOpKeepsLive(w: World, l: Token, op: Op, now: int, k: Token, owner: string, subject: string)
    requires (op.CopyPath? ==> !(op.src < op.dst)) && IsLive(w, k, owner, subject) && !(op.Close? && k == l)
    ensures IsLive(OnCache(w, l, op, now).0, k, owner, subject)
  {
    hide TreeAfter, LateAfterPut, DirtyFiles;
  }

  lemma ExportKeepsLive(
      w: World, l: Token, reachable: bool, writable: bool, now: int, k: Token, owner: string, subject: string)
    requires IsLive(w, k, owner, subject)
    ensures IsLive(Exported(w, l, reachable, writable, now).0, k, owner, subject)
  {
    hide BytesOf;
  }

  lemma ProvisionKeepsLive(
      w: World, cfg: Config, o: string, s: string, id: Token, now: int, k: Token, owner: string, subject: string)
    requires IsLive(w, k, owner, subject) && id !in w.dirs && id !in w.metas
    requires k in Reaping(w, cfg, now).dirs ==> IsLive(Reaping(w, cfg, now), k, owner, subject)
    requires k in Provisioned(w, cfg, o, s, id, now).0.dirs
    ensures IsLive(Provisioned(w, cfg, o, s, id, now).0, k, owner, subject)
  {
    hide Reaping;
  }

  lemma SweepKeepsLive(w: World, cfg: Config, now: int, k: Token, owner: string, subject: string)
    requires IsLive(w, k, owner, subject) && k in Reaping(w, cfg, now).dirs
    ensures IsLive(Reaping(w, cfg, now), k, owner, subject)
  {
  }

  /** A live cache stays one of its owner and subject for as long as its directory is there. */
  lemma LiveStays(w: World, cfg: Config, op: Op, now: int, k: Token, owner: string, subject: string)
    requires Allowed(w, op) && IsLive(w, k, owner, subject) && k in Step(w, cfg, op, now).0.dirs
    requires !(op.Close? && op.token == k)
    ensures IsLive(Step(w, cfg, op, now).0, k, owner, subject)
  {
    if Sweeps(op) {
      if k in Reaping(w, cfg, now).dirs { SweepKeepsLive(w, cfg, now, k, owner, subject); }
      hide Reaping, Provisioned, WellFormed, OnCache, Exported;
      if op.Provision? { ProvisionKeepsLive(w, cfg, op.owner, op.subject, op.id, now, k, owner, subject); }
    } else if op.Export? {
      ExportKeepsLive(w, op.token, op.reachable, op.writable, now, k, owner, subject);
    } else if !op.Resolve? {
      StepOnCache(w, cfg, op, now);
      hide Step, OnCache;
      CacheOpKeepsLive(w, op.token, op, now, k, owner, subject);
    }
  }

  lemma {:induction false} LiveStaysOverRuns(
      w: World, cfg: Config, events: seq<Event>, k: Token, owner: string, subject: string)
    requires Ok(w) && CanRun(w, cfg, events) && IsLive(w, k, owner, subject) && Spares(w, cfg, events, k)
    ensures Ok(Run(w, cfg, events)) && IsLive(Run(w, cfg, events), k, owner, subject)
    decreases |events|
  {
    if events != [] {
      var op, now := events[0].op, events[0].at;
      StepKeepsOk(w, cfg, op, now);
      TokensStayUnlessClosedOrSwept(w, cfg, op, now, k);
      LiveStays(w, cfg, op, now, k, owner, subject);
      hide Step, Ok, IsLive;
      LiveStaysOverRuns(Step(w, cfg, op, now).0, cfg, events[1..], k, owner, subject);
    }
  }

  /** In every run, asking again gives the same cache, unless a close or a sweep took it in between. */
  lemma ProvisionIsIdempotent(
      cfg: Config, before: seq<Event>, owner: string, subject: string, id: Token, at: int, k: Token,
      after: seq<Event>, again: Token, later: int)
    requires CanRun(Empty(), cfg, before) && owner != "" && subject != ""
    requires var w := Run(Empty(), cfg, before); w.now <= at && id !in w.dirs && id !in w.metas
    requires var (v, reply) := Step(Run(Empty(), cfg, before), cfg, Provision(owner, subject, id), at);
      && reply == Given(k) && CanRun(v, cfg, after) && Spares(v, cfg, after, k)
      && var u := Run(v, cfg, after); again !in u.dirs && again !in u.metas && u.now <= later
    ensures var u := Run(Step(Run(Empty(), cfg, before), cfg, Provision(owner, subject, id), at).0, cfg, after);
      && LiveCaches(u, owner, subject) == {k}
      && Step(u, cfg, Provision(owner, subject, again), later).1 == Given(k)
      && Step(u, cfg, Provision(owner, subject, again), later).0.dirs == u.dirs
  {
    EmptyIsOk();
    RunKeepsOk(Empty(), cfg, before);
    var w := Run(Empty(), cfg, before);
    var l := ProvisionGivesLive(w, cfg, owner, subject, id, at);
    var v := Step(w, cfg, Provision(owner, subject, id), at).0;
    StepKeepsOk(w, cfg, Provision(owner, subject, id), at);
    LiveStaysOverRuns(v, cfg, after, k, owner, subject);
    hide Run, Ok;
    var u := Run(v, cfg, after);
    LiveIsTheOne(u, k, owner, subject);
  }
}
