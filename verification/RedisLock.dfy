/** The lease lock of backend/services/lockManager.js: SET NX PX, the compare-and-delete and
    compare-and-pexpire scripts, and every interleaving of lock instances over one Redis. */
module RedisLock {
  import opened Wrappers

  datatype Entry = Entry(token: string, expiresAt: int)
  type Store = map<string, Entry>

  /** GET: an entry is there until its expiry time. */
  function Get(store: Store, now: int, key: string): Option<string> {
    if key in store && now < store[key].expiresAt then Some(store[key].token) else None
  }

  /** SET key token PX ttl NX. Redis rejects a non-positive expiry. */
  function SetNxPx(store: Store, now: int, key: string, token: string, ttl: int): (Store, bool) {
    if ttl > 0 && Get(store, now, key).None? then (store[key := Entry(token, now + ttl)], true) else (store, false)
  }

  /** The release script. */
  function CompareDelete(store: Store, now: int, key: string, token: string): (Store, bool) {
    if Get(store, now, key) == Some(token) then (store - {key}, true) else (store, false)
  }

  /** The renewal script. */
  function ComparePexpire(store: Store, now: int, key: string, token: string, ttl: int): (Store, bool) {
    if Get(store, now, key) == Some(token) then (store[key := Entry(token, now + ttl)], true) else (store, false)
  }

  /** The Redis server: each method is one atomic command. */
  class Redis {
    var now: int
    var store: Store

    constructor ()
      ensures now == 0 && store == map[]
    {
      now, store := 0, map[];
    }

    method Set(key: string, token: string, ttl: int) returns (ok: bool)
      modifies this`store
      ensures (store, ok) == SetNxPx(old(store), now, key, token, ttl)
    {
      ok := ttl > 0 && !(key in store && now < store[key].expiresAt);
      if ok {
        store := store[key := Entry(token, now + ttl)];
      }
    }

    method EvalRelease(key: string, token: string) returns (deleted: bool)
      modifies this`store
      ensures (store, deleted) == CompareDelete(old(store), now, key, token)
    {
      deleted := Get(store, now, key) == Some(token);
      if deleted {
        store := store - {key};
      }
    }

    method EvalRenew(key: string, token: string, ttl: int) returns (extended: bool)
      modifies this`store
      ensures (store, extended) == ComparePexpire(old(store), now, key, token, ttl)
    {
      extended := Get(store, now, key) == Some(token);
      if extended {
        store := store[key := Entry(token, now + ttl)];
      }
    }
  }

  /** A held lock; `renewing` is whether its renewal timer is running. */
  class Lock {
    const key: string
    const token: string
    const ttlMs: int
    var renewing: bool

    constructor (key: string, token: string, ttlMs: int, autoRenew: bool)
      ensures this.key == key && this.token == token && this.ttlMs == ttlMs && renewing == autoRenew
    {
      this.key, this.token, this.ttlMs := key, token, ttlMs;
      renewing := autoRenew;
    }

    /** A renewal tick. Losing the entry stops the timer; an unreachable Redis or a lost reply does
        not, and the script ran when only its reply was lost. */
    method Renew(redis: Redis, up: bool, replied: bool)
      modifies this, redis`store
      ensures redis.store == if up then ComparePexpire(old(redis.store), redis.now, key, token, ttlMs).0
                             else old(redis.store)
      ensures renewing == (old(renewing) && !(up && replied && Get(old(redis.store), redis.now, key) != Some(token)))
    {
      if up {
        var extended := redis.EvalRenew(key, token, ttlMs);
        if replied && !extended {
          renewing := false;
        }
      }
    }

    method Release(redis: Redis, up: bool)
      modifies this, redis`store
      ensures !renewing
      ensures redis.store == if up then CompareDelete(old(redis.store), redis.now, key, token).0 else old(redis.store)
    {
      renewing := false;
      if up {
        var _ := redis.EvalRelease(key, token);
      }
    }
  }

  /** LockManager.acquire; `replied` is false when the command ran but its reply was lost. */
  method Acquire(redis: Redis, key: string, token: string, ttlMs: int, autoRenew: bool, up: bool, replied: bool)
    returns (lock: Lock?)
    modifies redis`store
    ensures redis.store == if up then SetNxPx(old(redis.store), redis.now, key, token, ttlMs).0 else old(redis.store)
    ensures lock != null <==> up && replied && SetNxPx(old(redis.store), redis.now, key, token, ttlMs).1
    ensures lock != null ==>
              && fresh(lock) && lock.key == key && lock.token == token
              && lock.ttlMs == ttlMs && lock.renewing == autoRenew
  {
    if !up {
      return null;
    }
    var ok := redis.Set(key, token, ttlMs);
    if !replied || !ok {
      return null;
    }
    lock := new Lock(key, token, ttlMs, autoRenew);
  }

  // ---- Interleavings ----

  /** A lock instance as the protocol sees it. `leaseEnd` is its last acknowledged acquire or renew
      plus ttl. */
  datatype Holder = Holder(key: string, token: string, ttl: int, leaseEnd: int, released: bool)

  /** `issued` are the tokens any acquire has used. */
  datatype World = World(now: int, store: Store, holders: map<nat, Holder>, issued: set<string>)

  datatype Action =
    | TryAcquire(id: nat, key: string, token: string, ttl: int, replied: bool)
    | TryRenew(id: nat, replied: bool)
    | TryRelease(id: nat, applied: bool)
    | Advance(dt: nat)

  const START := World(0, map[], map[], {})

  /** Every acquire draws a new token; a renewal may still be in flight after release. */
  function Step(w: World, a: Action): World {
    match a
    case TryAcquire(id, key, token, ttl, replied) =>
      if id in w.holders || token in w.issued then w
      else
        var (store, ok) := SetNxPx(w.store, w.now, key, token, ttl);
        w.(store := store, issued := w.issued + {token},
           holders := if ok && replied then w.holders[id := Holder(key, token, ttl, w.now + ttl, false)] else w.holders)
    case TryRenew(id, replied) =>
      if id !in w.holders then w
      else
        var l := w.holders[id];
        var (store, ok) := ComparePexpire(w.store, w.now, l.key, l.token, l.ttl);
        w.(store := store,
           holders := if ok && replied then w.holders[id := l.(leaseEnd := w.now + l.ttl)] else w.holders)
    case TryRelease(id, applied) =>
      if id !in w.holders then w
      else
        var l := w.holders[id];
        w.(store := if applied then CompareDelete(w.store, w.now, l.key, l.token).0 else w.store,
           holders := w.holders[id := l.(released := true)])
    case Advance(dt) => w.(now := w.now + dt)
  }

  function Run(w: World, actions: seq<Action>): World
    decreases |actions|
  {
    if actions == [] then w else Run(Step(w, actions[0]), actions[1..])
  }

  predicate InLease(w: World, id: nat) {
    id in w.holders && !w.holders[id].released && w.now < w.holders[id].leaseEnd
  }

  /** Inside its lease an instance owns the Redis entry, and the entry outlives the lease. */
  ghost predicate Inv(w: World) {
    && (forall k :: k in w.store ==> w.store[k].token in w.issued)
    && (forall i :: i in w.holders ==>
          w.holders[i].token in w.issued && w.holders[i].ttl > 0 && w.holders[i].leaseEnd <= w.now + w.holders[i].ttl)
    && (forall i, j :: i in w.holders && j in w.holders && i != j ==> w.holders[i].token != w.holders[j].token)
    && (forall i :: InLease(w, i) ==> OwnsEntry(w, i))
  }

  ghost predicate OwnsEntry(w: World, i: nat)
    requires i in w.holders
  {
    var l := w.holders[i];
    l.key in w.store && w.store[l.key].token == l.token && w.store[l.key].expiresAt >= l.leaseEnd
  }

  lemma AcquireKeepsInv(w: World, id: nat, key: string, token: string, ttl: int, replied: bool)
    requires Inv(w)
    ensures Inv(Step(w, TryAcquire(id, key, token, ttl, replied)))
  {
    var w' := Step(w, TryAcquire(id, key, token, ttl, replied));
    forall i | InLease(w', i)
      ensures OwnsEntry(w', i)
    {
      assert i in w.holders ==> InLease(w, i) && OwnsEntry(w, i);
    }
  }

  lemma RenewKeepsInv(w: World, id: nat, replied: bool)
    requires Inv(w)
    ensures Inv(Step(w, TryRenew(id, replied)))
  {
    var w' := Step(w, TryRenew(id, replied));
    forall i | InLease(w', i)
      ensures OwnsEntry(w', i)
    {
      if i != id {
        assert OwnsEntry(w, i);
      } else {
        assert InLease(w, i) ==> OwnsEntry(w, i);
      }
    }
  }

  lemma ReleaseKeepsInv(w: World, id: nat, applied: bool)
    requires Inv(w)
    ensures Inv(Step(w, TryRelease(id, applied)))
  {
    var w' := Step(w, TryRelease(id, applied));
    forall i | InLease(w', i)
      ensures OwnsEntry(w', i)
    {
      assert InLease(w, i) && OwnsEntry(w, i);
    }
  }

  lemma StepKeepsInv(w: World, a: Action)
    requires Inv(w)
    ensures Inv(Step(w, a))
  {
    match a
    case TryAcquire(id, key, token, ttl, replied) => AcquireKeepsInv(w, id, key, token, ttl, replied);
    case TryRenew(id, replied) => RenewKeepsInv(w, id, replied);
    case TryRelease(id, applied) => ReleaseKeepsInv(w, id, applied);
    case Advance(dt) =>
      assert forall i :: InLease(Step(w, a), i) ==> InLease(w, i);
  }

  lemma {:induction false} RunKeepsInv(w: World, actions: seq<Action>)
    requires Inv(w)
    ensures Inv(Run(w, actions))
    decreases |actions|
  {
    if actions != [] {
      StepKeepsInv(w, actions[0]);
      RunKeepsInv(Step(w, actions[0]), actions[1..]);
    }
  }

  /** In every interleaving, with lost replies, lost commands and stale instances, two instances are
      never both inside an unreleased lease on one key. */
  lemma MutualExclusion(actions: seq<Action>, i: nat, j: nat)
    requires var w := Run(START, actions);
             InLease(w, i) && InLease(w, j) && w.holders[i].key == w.holders[j].key
    ensures i == j
  {
    var w := Run(START, actions);
    RunKeepsInv(START, actions);
    assert OwnsEntry(w, i) && OwnsEntry(w, j);
  }

  /** A renewal or release by an instance whose token no longer holds a key changes no entry, and
      whatever anyone does, an entry with another live token keeps its token and its expiry. */
  lemma OthersUntouched(w: World, a: Action, key: string)
    requires Inv(w) && Get(w.store, w.now, key).Some? && !a.Advance?
    requires a.TryRenew? || a.TryRelease? ==> a.id in w.holders ==> w.holders[a.id].token != w.store[key].token
    ensures key in Step(w, a).store && Step(w, a).store[key] == w.store[key]
  {
  }

  /** A renewal that runs inside the lease always succeeds and starts a full new lease. */
  lemma RenewalInsideLease(w: World, id: nat)
    requires Inv(w) && InLease(w, id)
    ensures var w' := Step(w, TryRenew(id, true));
            InLease(w', id) && w'.holders[id].leaseEnd == w.now + w.holders[id].ttl
  {
    assert OwnsEntry(w, id);
  }

  /** Time never runs past the instance's lease before its next renewal, and it is not released. */
  ghost predicate Timely(w: World, id: nat, actions: seq<Action>)
    decreases |actions|
  {
    actions == [] || (
      && (actions[0].Advance? ==> id in w.holders && w.now + actions[0].dt < w.holders[id].leaseEnd)
      && !(actions[0].TryRelease? && actions[0].id == id)
      && Timely(Step(w, actions[0]), id, actions[1..]))
  }

  /** While renewals come in time the lock is never lost: the instance stays inside its lease, and no
      acquire of the key by anyone else succeeds. */
  lemma {:induction false} TimelyRenewalKeepsLock(w: World, id: nat, actions: seq<Action>)
    requires Inv(w) && InLease(w, id) && Timely(w, id, actions)
    ensures InLease(Run(w, actions), id)
    ensures forall j :: j in Run(w, actions).holders && j !in w.holders ==>
              Run(w, actions).holders[j].key != w.holders[id].key
    decreases |actions|
  {
    if actions != [] {
      var w1, w' := Step(w, actions[0]), Run(w, actions);
      StepInsideLease(w, id, actions[0]);
      TimelyRenewalKeepsLock(w1, id, actions[1..]);
      StepKeepsKeys(w1, actions[1..]);
      forall j | j in w'.holders && j !in w.holders
        ensures w'.holders[j].key != w.holders[id].key
      {
        assert j in w1.holders ==> w'.holders[j].key == w1.holders[j].key;
      }
    }
  }

  lemma StepInsideLease(w: World, id: nat, a: Action)
    requires Inv(w) && InLease(w, id)
    requires a.Advance? ==> w.now + a.dt < w.holders[id].leaseEnd
    requires !(a.TryRelease? && a.id == id)
    ensures var w1 := Step(w, a);
            && Inv(w1) && InLease(w1, id) && w1.holders[id].key == w.holders[id].key
            && (forall j :: j in w1.holders && j !in w.holders ==> w1.holders[j].key != w.holders[id].key)
  {
    assert OwnsEntry(w, id);
    StepKeepsInv(w, a);
  }

  lemma {:induction false} StepKeepsKeys(w: World, actions: seq<Action>)
    ensures forall j :: j in w.holders ==>
              j in Run(w, actions).holders && Run(w, actions).holders[j].key == w.holders[j].key
    decreases |actions|
  {
    if actions != [] {
      StepKeepsKeys(Step(w, actions[0]), actions[1..]);
    }
  }

  // ---- Who can take a key ----

  /** SET NX PX takes the key if and only if it has no live entry, and then writes that one entry. */
  lemma TakesExactlyFreeKeys(store: Store, now: int, key: string, token: string, ttl: int)
    requires ttl > 0
    ensures var (store', ok) := SetNxPx(store, now, key, token, ttl);
            && (ok <==> key !in store || store[key].expiresAt <= now)
            && store' == if ok then store[key := Entry(token, now + ttl)] else store
  {
  }

  /** A release inside the lease deletes the key and nothing else, whichever instance asks. */
  lemma ReleaseFreesKey(w: World, id: nat)
    requires Inv(w) && InLease(w, id)
    ensures var w' := Step(w, TryRelease(id, true));
            && Get(w'.store, w'.now, w.holders[id].key).None?
            && w'.store == w.store - {w.holders[id].key}
            && w'.holders == w.holders[id := w.holders[id].(released := true)]
  {
    assert OwnsEntry(w, id);
  }

  /** So the next acquire of the key by anyone is inside its lease at once. */
  lemma ReleasedKeyIsTaken(w: World, id: nat, next: nat, token: string, ttl: int)
    requires Inv(w) && InLease(w, id) && next !in w.holders && token !in w.issued && ttl > 0
    ensures var w1 := Step(w, TryRelease(id, true));
            var w2 := Step(w1, TryAcquire(next, w.holders[id].key, token, ttl, true));
            InLease(w2, next) && w2.holders[next] == Holder(w.holders[id].key, token, ttl, w.now + ttl, false)
  {
    ReleaseFreesKey(w, id);
  }

  /** No acquire of the key, and no renewal or release of it by an instance that holds the token. */
  ghost predicate LeftAlone(w: World, key: string, token: string, actions: seq<Action>)
    decreases |actions|
  {
    actions == [] || (
      && (match actions[0]
          case TryAcquire(_, k, _, _, _) => k != key
          case TryRenew(id, _) => id in w.holders ==> w.holders[id].token != token
          case TryRelease(id, _) => id in w.holders ==> w.holders[id].token != token
          case Advance(_) => true)
      && LeftAlone(Step(w, actions[0]), key, token, actions[1..]))
  }

  lemma StepLeavesEntry(w: World, key: string, a: Action)
    requires Inv(w) && key in w.store && LeftAlone(w, key, w.store[key].token, [a])
    ensures key in Step(w, a).store && Step(w, a).store[key] == w.store[key]
  {
  }

  lemma {:induction false} EntryStays(w: World, key: string, actions: seq<Action>)
    requires Inv(w) && key in w.store && LeftAlone(w, key, w.store[key].token, actions)
    ensures Inv(Run(w, actions))
    ensures key in Run(w, actions).store && Run(w, actions).store[key] == w.store[key]
    decreases |actions|
  {
    if actions != [] {
      StepLeavesEntry(w, key, actions[0]);
      StepKeepsInv(w, actions[0]);
      EntryStays(Step(w, actions[0]), key, actions[1..]);
    }
  }

  /** A holder that dies without a release blocks its key exactly until the entry expires: whatever
      happens elsewhere, a new acquire gets the lock if and only if that time has come. */
  lemma DeadHolderBlocksUntilExpiry(w: World, key: string, actions: seq<Action>, next: nat, token: string, ttl: int)
    requires Inv(w) && key in w.store && LeftAlone(w, key, w.store[key].token, actions)
    requires next !in Run(w, actions).holders && token !in Run(w, actions).issued && ttl > 0
    ensures InLease(Step(Run(w, actions), TryAcquire(next, key, token, ttl, true)), next)
       <==> w.store[key].expiresAt <= Run(w, actions).now
  {
    EntryStays(w, key, actions);
  }

  /** The release script reports whether the caller still held the key, and changes nothing if not. */
  lemma ReleaseReportsOwnership(store: Store, now: int, key: string, token: string)
    ensures var (store', deleted) := CompareDelete(store, now, key, token);
            && (deleted <==> key in store && now < store[key].expiresAt && store[key].token == token)
            && (deleted ==> store' == store - {key})
            && (!deleted ==> store' == store)
  {
  }

  /** Without a renewal a lease lasts exactly until its end, and then anybody may take the key. */
  lemma LeaseRunsOut(w: World, id: nat, dt: nat)
    requires Inv(w) && InLease(w, id)
    ensures InLease(Run(w, [Advance(dt)]), id) <==> w.now + dt < w.holders[id].leaseEnd
  {
    assert [Advance(dt)][1..] == [];
    assert Run(w, [Advance(dt)]) == Step(w, Advance(dt));
  }
}
