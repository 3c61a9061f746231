/** The WebDAV lock registry: exclusive write locks with a lifetime (section 6.2 of RFC 4918).

    The registry is first a map from keys to locks and its operations are functions, so that whole runs can be spoken
    about; the class below keeps lock objects and refreshes them in place. */
module LockTable {
  import opened Basics

  type Owner(==, !new)
  type LockToken(==, !new)
  type Key = string

  datatype Held = Held(token: LockToken, owner: Owner, expiresAt: int)
  type Table = map<Key, Held>

  predicate Expired(h: Held, now: int) { now >= h.expiresAt }

  // ---------------------------------------------------------------- keys

  predicate IsSlash(c: char) { c == '/' }

  function KeyOf(token: string, rel: string): Key {
    token + "/" + Strip(IsSlash, rel)
  }

  function FirstSlash(s: string): nat {
    if s == [] || s[0] == '/' then 0 else 1 + FirstSlash(s[1..])
  }

  lemma {:induction false} SlashEndsToken(token: string, rest: string)
    requires '/' !in token
    ensures FirstSlash(token + "/" + rest) == |token|
  {
    if token == [] {
      assert (token + "/" + rest)[0] == '/';
    } else {
      assert (token + "/" + rest)[1..] == token[1..] + "/" + rest;
      SlashEndsToken(token[1..], rest);
    }
  }

  /** Two resources share a key only if they are the same path in the same cache: a token has no slash. */
  lemma KeysAreDistinct(token: string, rel: string, token': string, rel': string)
    requires '/' !in token && '/' !in token'
    ensures KeyOf(token, rel) == KeyOf(token', rel') <==> token == token' && Strip(IsSlash, rel) == Strip(IsSlash, rel')
  {
    var k, k' := KeyOf(token, rel), KeyOf(token', rel');
    SlashEndsToken(token, Strip(IsSlash, rel));
    SlashEndsToken(token', Strip(IsSlash, rel'));
    assert k[..|token|] == token && k[|token| + 1..] == Strip(IsSlash, rel);
    assert k'[..|token'|] == token' && k'[|token'| + 1..] == Strip(IsSlash, rel');
  }

  // ---------------------------------------------------------------- the operations

  /** A new lock has a token no one has seen; the same owner keeps the token it has. */
  function AfterAcquire(t: Table, k: Key, owner: Owner, ttl: int, id: LockToken, now: int): (Table, Option<Held>) {
    if k in t && !Expired(t[k], now) then
      if t[k].owner != owner then (t, None)
      else (t[k := t[k].(expiresAt := now + ttl)], Some(t[k].(expiresAt := now + ttl)))
    else (t[k := Held(id, owner, now + ttl)], Some(Held(id, owner, now + ttl)))
  }

  /** The lock that keeps this owner from writing, if there is one. */
  function AfterCheck(t: Table, k: Key, owner: Owner, now: int): (Table, Option<Held>) {
    if k !in t then (t, None)
    else if Expired(t[k], now) then (t - {k}, None)
    else if t[k].owner == owner then (t, None)
    else (t, Some(t[k]))
  }

  function AfterRelease(t: Table, k: Key, token: LockToken): (Table, bool) {
    if k in t && t[k].token == token then (t - {k}, true) else (t, false)
  }

  datatype Op =
    | DoAcquire(key: Key, owner: Owner, ttl: int, id: LockToken)
    | DoCheck(key: Key, owner: Owner)
    | DoRelease(key: Key, token: LockToken)

  datatype Event = Event(op: Op, at: int)

  function Step(t: Table, e: Event): (Table, Option<Held>) {
    match e.op
    case DoAcquire(k, owner, ttl, id) => AfterAcquire(t, k, owner, ttl, id, e.at)
    case DoCheck(k, owner) => AfterCheck(t, k, owner, e.at)
    case DoRelease(k, token) => (AfterRelease(t, k, token).0, None)
  }

  function Run(t: Table, events: seq<Event>): Table
    decreases |events|
  {
    if events == [] then t else Run(Step(t, events[0]).0, events[1..])
  }

  // ---------------------------------------------------------------- exclusion over whole runs

  /** When a lock of this owner runs out, after an event: its own acquires renew it. */
  function Renewed(expires: int, k: Key, owner: Owner, e: Event): int {
    if e.op.DoAcquire? && e.op.key == k && e.op.owner == owner then e.at + e.op.ttl else expires
  }

  function RenewedBy(expires: int, k: Key, owner: Owner, events: seq<Event>): int
    decreases |events|
  {
    if events == [] then expires else RenewedBy(Renewed(expires, k, owner, events[0]), k, owner, events[1..])
  }

  /** Every event comes before the lock runs out, as last renewed, and none presents its token to release it. The lock
      table does not appear: this can be told from the events alone. */
  predicate WithinLease(expires: int, k: Key, owner: Owner, token: LockToken, events: seq<Event>)
    decreases |events|
  {
    events == [] ||
    (events[0].at < expires && events[0].op != DoRelease(k, token) &&
      WithinLease(Renewed(expires, k, owner, events[0]), k, owner, token, events[1..]))
  }

  /** Whatever others do, the holder keeps the lock and its token until the lease as last renewed runs out, or the token
      is presented. */
  lemma {:induction false} HolderKeepsLock(t: Table, k: Key, h: Held, events: seq<Event>)
    requires k in t && t[k] == h && WithinLease(h.expiresAt, k, h.owner, h.token, events)
    ensures var v := Run(t, events);
      k in v && v[k] == Held(h.token, h.owner, RenewedBy(h.expiresAt, k, h.owner, events))
    decreases |events|
  {
    if events != [] {
      var e := events[0];
      var next := Step(t, e).0;
      assert next[k] == h.(expiresAt := Renewed(h.expiresAt, k, h.owner, e));
      HolderKeepsLock(next, k, next[k], events[1..]);
    }
  }

  lemma {:induction false} LeaseOfPrefix(
      expires: int, k: Key, owner: Owner, token: LockToken, events: seq<Event>, n: nat)
    requires n < |events| && WithinLease(expires, k, owner, token, events)
    ensures WithinLease(expires, k, owner, token, events[..n])
    ensures events[n].at < RenewedBy(expires, k, owner, events[..n]) && events[n].op != DoRelease(k, token)
    decreases n
  {
    if n > 0 {
      assert events[..n][1..] == events[1..][..n - 1];
      LeaseOfPrefix(Renewed(expires, k, owner, events[0]), k, owner, token, events[1..], n - 1);
    }
  }

  /** Exclusive: from an owner's successful acquire, for as long as its lease lasts, every other owner's acquire fails,
      `check` blocks every other owner and never the holder, and the holder's own acquires return the token it has. */
  lemma LockIsExclusive(t: Table, first: Event, events: seq<Event>, i: nat)
    requires first.op.DoAcquire? && Step(t, first).1.Some? && i < |events|
    requires var h := Step(t, first).1.value; WithinLease(h.expiresAt, first.op.key, h.owner, h.token, events)
    ensures var h := Step(t, first).1.value;
      var e := events[i];
      var reply := Step(Run(Step(t, first).0, events[..i]), e).1;
      && h.owner == first.op.owner
      && (e.op.DoAcquire? && e.op.key == first.op.key ==>
            if e.op.owner == h.owner then reply.Some? && reply.value.token == h.token else reply == None)
      && (e.op.DoCheck? && e.op.key == first.op.key ==>
            if e.op.owner == h.owner then reply == None
            else reply.Some? && reply.value.owner == h.owner && reply.value.token == h.token)
  {
    var h := Step(t, first).1.value;
    LeaseOfPrefix(h.expiresAt, first.op.key, h.owner, h.token, events, i);
    HolderKeepsLock(Step(t, first).0, first.op.key, h, events[..i]);
  }

  /** An acquire fails exactly when a live lock of another owner is there; a lock that ran out, or was released with its
      token, is in nobody's way. */
  lemma AcquireFailsOnlyOnLiveLock(t: Table, k: Key, owner: Owner, ttl: int, id: LockToken, now: int)
    ensures AfterAcquire(t, k, owner, ttl, id, now).1 == None <==> k in t && now < t[k].expiresAt && t[k].owner != owner
    ensures AfterAcquire(t, k, owner, ttl, id, now).1 == None <==> AfterCheck(t, k, owner, now).1.Some?
    ensures k in t ==>
      AfterAcquire(AfterRelease(t, k, t[k].token).0, k, owner, ttl, id, now).1 == Some(Held(id, owner, now + ttl))
  {
  }

  /** Who acquires holds, until the time to live is over: the lock returned is the one filed. Its token is the one
      handed in, unless the same owner's lock was live and keeps its own. Whoever is refused changes nothing. */
  lemma AcquireHolds(t: Table, k: Key, owner: Owner, ttl: int, id: LockToken, now: int)
    ensures var (v, reply) := AfterAcquire(t, k, owner, ttl, id, now);
      && (reply == None ==> v == t)
      && (reply.Some? ==>
            && v == t[k := reply.value] && reply.value.owner == owner && reply.value.expiresAt == now + ttl
            && reply.value.token == if k in t && now < t[k].expiresAt then t[k].token else id)
  {
  }

  /** `check` names exactly the live lock of another owner, and drops no lock but one that ran out. */
  lemma CheckNamesTheLiveLock(t: Table, k: Key, owner: Owner, now: int)
    ensures var (v, blocking) := AfterCheck(t, k, owner, now);
      && (blocking.Some? <==> k in t && now < t[k].expiresAt && t[k].owner != owner)
      && (blocking.Some? ==> blocking.value == t[k])
      && v == if k in t && now >= t[k].expiresAt then t - {k} else t
  {
  }

  /** A release takes the lock whose token is presented, and nothing else. */
  lemma ReleaseNeedsTheToken(t: Table, k: Key, token: LockToken)
    ensures var (v, released) := AfterRelease(t, k, token);
      && (released <==> k in t && t[k].token == token)
      && v == if released then t - {k} else t
  {
  }

  /** Every key is on its own: a lock on a folder says nothing about what lies in it, whatever depth was asked for. */
  lemma {:induction false} OtherKeysAreUntouched(t: Table, k: Key, events: seq<Event>)
    requires forall i :: 0 <= i < |events| ==> events[i].op.key != k
    ensures k in Run(t, events) <==> k in t
    ensures k in t ==> Run(t, events)[k] == t[k]
    decreases |events|
  {
    if events != [] {
      var next := Step(t, events[0]).0;
      assert events[0].op.key != k;
      assert (k in next <==> k in t) && (k in t ==> next[k] == t[k]);
      OtherKeysAreUntouched(next, k, events[1..]);
    }
  }

  // ---------------------------------------------------------------- the registry in memory

  class Lock {
    const token: LockToken
    const resource: Key
    const owner: Owner
    const depth: string
    var expiresAt: int

    constructor (token: LockToken, resource: Key, owner: Owner, depth: string, expiresAt: int)
      ensures this.token == token && this.resource == resource && this.owner == owner && this.depth == depth
      ensures this.expiresAt == expiresAt
    {
      this.token, this.resource, this.owner, this.depth, this.expiresAt := token, resource, owner, depth, expiresAt;
    }

    function Value(): Held
      reads this
    {
      Held(token, owner, expiresAt)
    }
  }

  class Registry {
    var locks: map<Key, Lock>

    constructor ()
      ensures Valid() && View() == map[]
    {
      locks := map[];
    }

    /** Each lock is filed under the key it names, so no lock object serves two keys. */
    ghost predicate Valid()
      reads this
    {
      forall k :: k in locks ==> locks[k].resource == k
    }

    ghost function View(): Table
      reads this, locks.Values
    {
      map k | k in locks :: locks[k].Value()
    }

    method Acquire(k: Key, owner: Owner, depth: string, ttl: int, id: LockToken, now: int) returns (lock: Lock?)
      requires Valid()
      modifies this, locks.Values
      ensures Valid()
      ensures var (view, reply) := AfterAcquire(old(View()), k, owner, ttl, id, now);
        View() == view && (lock == null <==> reply == None) &&
          (lock != null ==> reply == Some(lock.Value()) && lock.resource == k)
      ensures lock == null <==> k in old(locks) && now < old(locks[k].expiresAt) && old(locks)[k].owner != owner
      ensures lock == null ==> View() == old(View())
      ensures lock != null ==> k in locks && locks[k] == lock && lock.owner == owner && lock.expiresAt == now + ttl
      ensures lock != null ==>
        if k in old(locks) && now < old(locks[k].expiresAt) then lock == old(locks)[k]
        else fresh(lock) && lock.token == id && lock.depth == depth
    {
      if k in locks {
        var existing := locks[k];
        if now < existing.expiresAt {
          if existing.owner != owner {
            return null;
          }
          existing.expiresAt := now + ttl;
          return existing;
        }
      }
      lock := new Lock(id, k, owner, depth, now + ttl);
      locks := locks[k := lock];
    }

    method Check(k: Key, owner: Owner, now: int) returns (blocking: Lock?)
      requires Valid()
      modifies this
      ensures Valid()
      ensures var (view, reply) := AfterCheck(old(View()), k, owner, now);
        View() == view && (blocking == null <==> reply == None) &&
          (blocking != null ==> reply == Some(blocking.Value()))
    {
      if k !in locks {
        return null;
      }
      var existing := locks[k];
      if now >= existing.expiresAt {
        locks := locks - {k};
        return null;
      }
      if existing.owner == owner {
        return null;
      }
      return existing;
    }

    method Release(k: Key, token: LockToken) returns (removed: bool)
      requires Valid()
      modifies this
      ensures Valid() && (View(), removed) == AfterRelease(old(View()), k, token)
    {
      if k in locks && locks[k].token == token {
        locks := locks - {k};
        assert View() == old(View()) - {k};
        return true;
      }
      return false;
    }
  }
}
