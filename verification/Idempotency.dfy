/** Time-limited locks that prevent a trade from running twice (execution/idempotency.py). The state
    file is the map it encodes; a write that fails leaves the map unchanged. */
module Idempotency {
  import Collections

  datatype Lock = Lock(acquiredAt: real, expiry: real)

  type Locks = map<string, Lock>

  // ---- Specification of each operation on the map ----

  /** What a read of the file yields. One that cannot be opened yields nothing, one that breaks off
      yields a part: `lost` names the keys whose lines it misses. */
  function Read(locks: Locks, lost: set<string>): Locks {
    locks - lost
  }

  predicate Active(locks: Locks, key: string, now: real) {
    key in locks && now < locks[key].expiry
  }

  /** A successful write replaces the whole file by what was read and changed. */
  function Acquire(ttl: real, locks: Locks, key: string, now: real, lost: set<string>, written: bool): (Locks, bool) {
    if Active(Read(locks, lost), key, now) || !written then (locks, false)
    else (Read(locks, lost)[key := Lock(now, now + ttl)], true)
  }

  function Release(locks: Locks, key: string, lost: set<string>, written: bool): (Locks, bool) {
    if key !in Read(locks, lost) || !written then (locks, false) else (Read(locks, lost) - {key}, true)
  }

  function Unexpired(locks: Locks, now: real): Locks {
    map k | k in locks && locks[k].expiry > now :: locks[k]
  }

  function Prune(locks: Locks, now: real, lost: set<string>, written: bool): (Locks, int) {
    var found := Read(locks, lost);
    var removed := |found| - |Unexpired(found, now)|;
    (if removed > 0 && written then Unexpired(found, now) else locks, removed)
  }

  class IdempotencyManager {
    const ttlSec: int
    var locks: Locks

    constructor (ttlSec: int)
      ensures this.ttlSec == ttlSec && locks == map[]
    {
      this.ttlSec, locks := ttlSec, map[];
    }

    method AcquireLock(key: string, now: real, lost: set<string>, written: bool) returns (ok: bool)
      modifies this
      ensures (locks, ok) == Acquire(ttlSec as real, old(locks), key, now, lost, written)
    {
      var found := Read(locks, lost);
      if key in found {
        var expiry := found[key].expiry;
        if now < expiry {
          return false;
        }
      }
      found := found[key := Lock(now, now + ttlSec as real)];
      if !written {
        return false;
      }
      locks := found;
      return true;
    }

    method ReleaseLock(key: string, lost: set<string>, written: bool) returns (ok: bool)
      modifies this
      ensures (locks, ok) == Release(old(locks), key, lost, written)
    {
      var found := Read(locks, lost);
      if key !in found || !written {
        return false;
      }
      locks := found - {key};
      return true;
    }

    method PruneLocks(now: real, lost: set<string>, written: bool) returns (removed: int)
      modifies this
      ensures (locks, removed) == Prune(old(locks), now, lost, written)
    {
      var found := Read(locks, lost);
      var activeLocks := map k | k in found && found[k].expiry > now :: found[k];
      assert activeLocks == Unexpired(found, now);
      removed := |found| - |activeLocks|;
      if removed > 0 && written {
        locks := activeLocks;
      }
    }

    method Check(key: string, now: real, lost: set<string>) returns (held: bool)
      ensures held <==> Active(Read(locks, lost), key, now)
    {
      var found := Read(locks, lost);
      if key !in found {
        return false;
      }
      return now < found[key].expiry;
    }
  }

  // ---- Every sequential run ----

  datatype Event =
    | AcquireAt(key: string, now: real, lost: set<string>, written: bool)
    | ReleaseAt(key: string, now: real, lost: set<string>, written: bool)
    | PruneAt(now: real, lost: set<string>, written: bool)
    | CheckAt(key: string, now: real, lost: set<string>)

  /** The map after an event, and the result of the call (true for a prune). */
  function Step(ttl: real, locks: Locks, ev: Event): (Locks, bool) {
    match ev
    case AcquireAt(key, now, lost, written) => Acquire(ttl, locks, key, now, lost, written)
    case ReleaseAt(key, _, lost, written) => Release(locks, key, lost, written)
    case PruneAt(now, lost, written) => (Prune(locks, now, lost, written).0, true)
    case CheckAt(key, now, lost) => (locks, Active(Read(locks, lost), key, now))
  }

  function RunFrom(ttl: real, locks: Locks, evs: seq<Event>): Locks {
    if evs == [] then locks else Step(ttl, RunFrom(ttl, locks, evs[..|evs| - 1]), evs[|evs| - 1]).0
  }

  /** The clock never runs backwards. */
  ghost predicate Ordered(evs: seq<Event>) {
    forall i, j | 0 <= i < j < |evs| :: evs[i].now <= evs[j].now
  }

  predicate Acquired(ttl: real, evs: seq<Event>, i: nat, key: string)
    requires i < |evs|
  {
    evs[i].AcquireAt? && evs[i].key == key && Step(ttl, RunFrom(ttl, map[], evs[..i]), evs[i]).1
  }

  /** A release of the key that has read its line and is written. */
  predicate Releases(ev: Event, key: string) {
    ev.ReleaseAt? && ev.key == key && ev.written && key !in ev.lost
  }

  /** The event neither releases the key nor misses its line. */
  predicate Spares(ev: Event, key: string) {
    !Releases(ev, key) && key !in ev.lost
  }

  lemma StepKeepsLock(ttl: real, locks: Locks, ev: Event, key: string)
    requires Spares(ev, key) && Active(locks, key, ev.now)
    ensures var locks' := Step(ttl, locks, ev).0;
            key in locks' && locks'[key] == locks[key]
  {
  }

  /** After an acquire, the lock stands until its expiry unless it is released or its line missed. */
  lemma {:induction false} LockStands(ttl: real, evs: seq<Event>, i: nat, n: nat, key: string)
    requires i < n <= |evs| && Acquired(ttl, evs, i, key)
    requires forall k | i < k < n :: Spares(evs[k], key) && evs[k].now < evs[i].now + ttl
    ensures var locks := RunFrom(ttl, map[], evs[..n]);
            key in locks && locks[key].expiry == evs[i].now + ttl
    decreases n
  {
    var locks := LastStep(ttl, evs, n);
    if n > i + 1 {
      LockStands(ttl, evs, i, n - 1, key);
      StepKeepsLock(ttl, locks, evs[n - 1], key);
    } else {
      StepTakesLock(ttl, locks, evs[i], key);
    }
  }

  lemma LastStep(ttl: real, evs: seq<Event>, n: nat) returns (locks: Locks)
    requires 0 < n <= |evs|
    ensures locks == RunFrom(ttl, map[], evs[..n - 1])
    ensures RunFrom(ttl, map[], evs[..n]) == Step(ttl, locks, evs[n - 1]).0
  {
    locks := RunFrom(ttl, map[], evs[..n - 1]);
    assert evs[..n][..n - 1] == evs[..n - 1];
  }

  lemma StepTakesLock(ttl: real, locks: Locks, ev: Event, key: string)
    requires ev.AcquireAt? && ev.key == key && Step(ttl, locks, ev).1
    ensures var locks' := Step(ttl, locks, ev).0;
            key in locks' && locks'[key].expiry == ev.now + ttl
  {
  }

  /** Within the ttl of an acquire, with the key neither released nor missed in between, a second
      acquire succeeds if and only if its own read misses the key's line and its write succeeds. */
  lemma EarlyAcquireIffLost(ttl: real, evs: seq<Event>, i: nat, j: nat, key: string)
    requires Ordered(evs) && i < j < |evs| && Acquired(ttl, evs, i, key)
    requires forall k | i < k < j :: Spares(evs[k], key)
    requires evs[j].AcquireAt? && evs[j].key == key && evs[j].now < evs[i].now + ttl
    ensures Acquired(ttl, evs, j, key) <==> key in evs[j].lost && evs[j].written
  {
    LockStands(ttl, evs, i, j, key);
  }

  /** Two successful acquires of one key, with no release and no missed line in between, are at least
      `ttl` apart. */
  lemma AcquiresAreApart(ttl: real, evs: seq<Event>, i: nat, j: nat, key: string)
    requires Ordered(evs) && i < j < |evs|
    requires Acquired(ttl, evs, i, key) && Acquired(ttl, evs, j, key)
    requires forall k | i < k <= j :: Spares(evs[k], key)
    ensures evs[i].now + ttl <= evs[j].now
  {
    if evs[j].now < evs[i].now + ttl {
      EarlyAcquireIffLost(ttl, evs, i, j, key);
      assert false;
    }
  }

  /** An acquire before `n` whose lock nothing has released since. */
  ghost predicate Standing(ttl: real, evs: seq<Event>, i: nat, n: nat, key: string) {
    i < n <= |evs| && Acquired(ttl, evs, i, key) && forall k | i < k < n :: !Releases(evs[k], key)
  }

  /** A lock on file stems from such an acquire, and expires its ttl later. */
  lemma {:induction false} LockHasSource(ttl: real, evs: seq<Event>, n: nat, key: string) returns (i: nat)
    requires n <= |evs| && key in RunFrom(ttl, map[], evs[..n])
    ensures Standing(ttl, evs, i, n, key)
    ensures RunFrom(ttl, map[], evs[..n])[key].expiry == evs[i].now + ttl
    decreases n
  {
    assert n > 0;
    assert evs[..n][..n - 1] == evs[..n - 1];
    if Acquired(ttl, evs, n - 1, key) {
      i := n - 1;
    } else {
      StepAddsByAcquireOnly(ttl, RunFrom(ttl, map[], evs[..n - 1]), evs[n - 1], key);
      i := LockHasSource(ttl, evs, n - 1, key);
    }
  }

  lemma StepAddsByAcquireOnly(ttl: real, locks: Locks, ev: Event, key: string)
    requires key in Step(ttl, locks, ev).0 && !(ev.AcquireAt? && ev.key == key && Step(ttl, locks, ev).1)
    ensures key in locks && Step(ttl, locks, ev).0[key] == locks[key] && !Releases(ev, key)
  {
    if ev.AcquireAt? {
      AcquireAddsItsOwn(ttl, locks, ev.key, ev.now, ev.lost, ev.written, key);
    }
  }

  lemma AcquireAddsItsOwn(ttl: real, locks: Locks, key: string, now: real, lost: set<string>, written: bool, other: string)
    requires var (locks', ok) := Acquire(ttl, locks, key, now, lost, written);
             other in locks' && !(other == key && ok)
    ensures other in locks && Acquire(ttl, locks, key, now, lost, written).0[other] == locks[other]
  {
  }

  /** Over runs that read the whole file: a key is held if and only if some acquire of it still stands
      and its ttl has not passed. */
  lemma HeldIff(ttl: real, evs: seq<Event>, n: nat, key: string, now: real)
    requires n <= |evs| && Ordered(evs) && (forall k | 0 <= k < n :: evs[k].lost == {} && evs[k].now <= now)
    ensures Active(RunFrom(ttl, map[], evs[..n]), key, now)
            <==> exists i: nat :: Standing(ttl, evs, i, n, key) && now < evs[i].now + ttl
  {
    if Active(RunFrom(ttl, map[], evs[..n]), key, now) {
      var i := LockHasSource(ttl, evs, n, key);
    }
    if i: nat :| Standing(ttl, evs, i, n, key) && now < evs[i].now + ttl {
      LockStands(ttl, evs, i, n, key);
    }
  }

  /** So an acquire succeeds if and only if it writes and no earlier one stands whose ttl has not passed. */
  lemma AcquiredIff(ttl: real, evs: seq<Event>, j: nat, key: string)
    requires j < |evs| && Ordered(evs) && evs[j].AcquireAt? && evs[j].key == key
    requires forall k | 0 <= k <= j :: evs[k].lost == {}
    ensures Acquired(ttl, evs, j, key)
            <==> evs[j].written && !exists i: nat :: Standing(ttl, evs, i, j, key) && evs[j].now < evs[i].now + ttl
  {
    ReadAll(RunFrom(ttl, map[], evs[..j]));
    HeldIff(ttl, evs, j, key, evs[j].now);
  }

  /** And a check reports a lock if and only if one stands. */
  lemma CheckedIff(ttl: real, evs: seq<Event>, j: nat, key: string)
    requires j < |evs| && Ordered(evs) && evs[j].CheckAt? && evs[j].key == key
    requires forall k | 0 <= k <= j :: evs[k].lost == {}
    ensures Step(ttl, RunFrom(ttl, map[], evs[..j]), evs[j]).1
            <==> exists i: nat :: Standing(ttl, evs, i, j, key) && evs[j].now < evs[i].now + ttl
  {
    ReadAll(RunFrom(ttl, map[], evs[..j]));
    HeldIff(ttl, evs, j, key, evs[j].now);
  }

  /** One lost line is enough: two acquires of one key a second apart, both granted. */
  lemma LostLineGrantsTwice(ttl: real, key: string)
    requires ttl > 1.0
    ensures var evs := [AcquireAt(key, 0.0, {}, true), AcquireAt(key, 1.0, {key}, true)];
            Acquired(ttl, evs, 0, key) && Acquired(ttl, evs, 1, key)
  {
    var evs := [AcquireAt(key, 0.0, {}, true), AcquireAt(key, 1.0, {key}, true)];
    assert evs[..0] == [];
    EarlyAcquireIffLost(ttl, evs, 0, 1, key);
  }

  // ---- What a rewrite does to the other keys ----

  /** An acquire drops another key's lock if and only if it succeeds without having read it. */
  lemma AcquireDropsIff(ttl: real, locks: Locks, key: string, now: real, lost: set<string>, written: bool, other: string)
    requires other in locks && other != key
    ensures var (locks', ok) := Acquire(ttl, locks, key, now, lost, written);
            && (other !in locks' <==> ok && other in lost)
            && (other in locks' ==> locks'[other] == locks[other])
  {
  }

  /** So does a release. */
  lemma ReleaseDropsIff(locks: Locks, key: string, lost: set<string>, written: bool, other: string)
    requires other in locks && other != key
    ensures var (locks', ok) := Release(locks, key, lost, written);
            && (other !in locks' <==> ok && other in lost)
            && (other in locks' ==> locks'[other] == locks[other])
  {
  }

  ghost predicate AnyExpired(locks: Locks, now: real) {
    exists k :: k in locks && locks[k].expiry <= now
  }

  lemma ExpiredAreCounted(locks: Locks, now: real)
    ensures |Unexpired(locks, now)| <= |locks|
    ensures |Unexpired(locks, now)| < |locks| <==> AnyExpired(locks, now)
  {
    var kept := Unexpired(locks, now);
    assert |kept| == |kept.Keys| && |locks| == |locks.Keys|;
    Collections.SubsetCardinality(kept.Keys, locks.Keys);
    if k :| k in locks && locks[k].expiry <= now {
      Collections.SubsetCardinality(kept.Keys, locks.Keys - {k});
    } else {
      assert kept == locks;
    }
  }

  /** A prune removes a key if and only if it writes, which it does only if it has read some expired
      lock, and the key is expired or its line was missed. */
  lemma PruneRemovesIff(locks: Locks, now: real, lost: set<string>, written: bool, key: string)
    requires key in locks
    ensures key !in Prune(locks, now, lost, written).0
            <==> written && AnyExpired(Read(locks, lost), now) && (locks[key].expiry <= now || key in lost)
    ensures key in Prune(locks, now, lost, written).0 ==> Prune(locks, now, lost, written).0[key] == locks[key]
  {
    ExpiredAreCounted(Read(locks, lost), now);
  }

  lemma DroppedCount(found: Locks, now: real)
    ensures |found| - |Unexpired(found, now)| == |set k | k in found && found[k].expiry <= now|
  {
    var kept, expired := Unexpired(found, now), set k | k in found && found[k].expiry <= now;
    assert kept.Keys !! expired && found.Keys == kept.Keys + expired;
    assert |found| == |found.Keys| && |kept| == |kept.Keys|;
  }

  /** The count returned is that of the expired locks read, whether or not they could be written away. */
  lemma PruneCountsExpired(locks: Locks, now: real, lost: set<string>, written: bool)
    ensures Prune(locks, now, lost, written).1 == |set k | k in locks && k !in lost && locks[k].expiry <= now|
  {
    var found := Read(locks, lost);
    DroppedCount(found, now);
    assert (set k | k in found && found[k].expiry <= now) == set k | k in locks && k !in lost && locks[k].expiry <= now;
  }

  lemma CompletePrune(locks: Locks, now: real, written: bool)
    ensures Prune(locks, now, {}, written).0 == if written then Unexpired(locks, now) else locks
  {
    assert Read(locks, {}) == locks;
    ExpiredAreCounted(locks, now);
    if !AnyExpired(locks, now) {
      assert Unexpired(locks, now) == locks;
    }
  }

  // ---- Pruning is unobservable to acquire and check ----

  /** Two maps that agree on every lock unexpired at `now`: pruning moves between such maps. */
  ghost predicate SameUnexpired(a: Locks, b: Locks, now: real) {
    Unexpired(a, now) == Unexpired(b, now)
  }

  /** Releases and prunes read the whole file; acquires and checks may miss any part of it. */
  predicate Whole(ev: Event) {
    ev.ReleaseAt? || ev.PruneAt? ==> ev.lost == {}
  }

  lemma PruneKeepsUnexpired(locks: Locks, now: real, written: bool)
    ensures SameUnexpired(Prune(locks, now, {}, written).0, locks, now)
  {
    CompletePrune(locks, now, written);
    assert Unexpired(Unexpired(locks, now), now) == Unexpired(locks, now);
  }

  lemma SameUnexpiredLater(a: Locks, b: Locks, now: real, later: real)
    requires SameUnexpired(a, b, now) && now <= later
    ensures SameUnexpired(a, b, later)
  {
    assert Unexpired(a, later) == Unexpired(Unexpired(a, now), later);
    assert Unexpired(b, later) == Unexpired(Unexpired(b, now), later);
  }

  lemma SameAfterRead(a: Locks, b: Locks, lost: set<string>, now: real, key: string)
    requires SameUnexpired(a, b, now)
    ensures SameUnexpired(Read(a, lost), Read(b, lost), now)
    ensures Active(Read(a, lost), key, now) == Active(Read(b, lost), key, now)
  {
    assert Unexpired(Read(a, lost), now) == Read(Unexpired(a, now), lost);
    assert Unexpired(Read(b, lost), now) == Read(Unexpired(b, now), lost);
    assert Active(Read(a, lost), key, now) <==> key in Unexpired(Read(a, lost), now);
    assert Active(Read(b, lost), key, now) <==> key in Unexpired(Read(b, lost), now);
  }

  lemma UnexpiredAfterSet(locks: Locks, key: string, lock: Lock, now: real)
    ensures Unexpired(locks[key := lock], now)
            == if lock.expiry > now then Unexpired(locks, now)[key := lock] else Unexpired(locks, now) - {key}
  {
  }

  lemma AcquireAlike(ttl: real, a: Locks, b: Locks, key: string, now: real, lost: set<string>, written: bool)
    requires SameUnexpired(a, b, now)
    ensures SameUnexpired(Acquire(ttl, a, key, now, lost, written).0, Acquire(ttl, b, key, now, lost, written).0, now)
    ensures Acquire(ttl, a, key, now, lost, written).1 == Acquire(ttl, b, key, now, lost, written).1
  {
    SameAfterRead(a, b, lost, now, key);
    UnexpiredAfterSet(Read(a, lost), key, Lock(now, now + ttl), now);
    UnexpiredAfterSet(Read(b, lost), key, Lock(now, now + ttl), now);
  }

  lemma ReleasedUnexpired(locks: Locks, key: string, written: bool, now: real)
    ensures Unexpired(Release(locks, key, {}, written).0, now)
            == if written then Unexpired(locks, now) - {key} else Unexpired(locks, now)
  {
    assert Read(locks, {}) == locks;
    assert Unexpired(locks - {key}, now) == Unexpired(locks, now) - {key};
    assert key !in locks ==> locks - {key} == locks;
  }

  lemma StepRespectsSameUnexpired(ttl: real, a: Locks, b: Locks, ev: Event)
    requires SameUnexpired(a, b, ev.now) && Whole(ev)
    ensures SameUnexpired(Step(ttl, a, ev).0, Step(ttl, b, ev).0, ev.now)
    ensures !ev.ReleaseAt? ==> Step(ttl, a, ev).1 == Step(ttl, b, ev).1
  {
    match ev
    case AcquireAt(key, now, lost, written) =>
      AcquireAlike(ttl, a, b, key, now, lost, written);
    case ReleaseAt(key, now, lost, written) =>
      ReleasedUnexpired(a, key, written, now);
      ReleasedUnexpired(b, key, written, now);
    case PruneAt(now, lost, written) =>
      PruneKeepsUnexpired(a, now, written);
      PruneKeepsUnexpired(b, now, written);
    case CheckAt(key, now, lost) =>
      SameAfterRead(a, b, lost, now, key);
  }

  lemma {:induction false} RunsStayAlike(ttl: real, a: Locks, b: Locks, now: real, evs: seq<Event>)
    requires SameUnexpired(a, b, now) && Ordered(evs) && (evs != [] ==> now <= evs[0].now)
    requires forall ev | ev in evs :: Whole(ev)
    ensures SameUnexpired(RunFrom(ttl, a, evs), RunFrom(ttl, b, evs), if evs == [] then now else evs[|evs| - 1].now)
  {
    if evs != [] {
      var n := |evs| - 1;
      RunsStayAlike(ttl, a, b, now, evs[..n]);
      var a1, b1 := RunFrom(ttl, a, evs[..n]), RunFrom(ttl, b, evs[..n]);
      SameUnexpiredLater(a1, b1, if n == 0 then now else evs[n - 1].now, evs[n].now);
      StepRespectsSameUnexpired(ttl, a1, b1, evs[n]);
    }
  }

  lemma OrderedAround(before: seq<Event>, mid: Event, after: seq<Event>, later: Event)
    requires Ordered(before + [mid] + after + [later])
    ensures Ordered(after) && mid.now <= later.now
    ensures after != [] ==> mid.now <= after[0].now && after[|after| - 1].now <= later.now
  {
    var all, k := before + [mid] + after + [later], |before|;
    assert all[k] == mid && all[|all| - 1] == later;
    assert forall i | 0 <= i < |after| :: after[i] == all[k + 1 + i];
  }

  /** Inserting a prune anywhere changes no later result of `acquire_lock` or `check`, as long as
      prunes and releases read the whole file. */
  lemma PruneUnobservable(ttl: real, before: seq<Event>, now: real, written: bool, after: seq<Event>, later: Event)
    requires Ordered(before + [PruneAt(now, {}, written)] + after + [later])
    requires (forall ev | ev in after :: Whole(ev)) && (later.AcquireAt? || later.CheckAt?)
    ensures var start := RunFrom(ttl, map[], before);
            var pruned := Step(ttl, start, PruneAt(now, {}, written)).0;
            Step(ttl, RunFrom(ttl, pruned, after), later).1 == Step(ttl, RunFrom(ttl, start, after), later).1
  {
    var start := RunFrom(ttl, map[], before);
    var pruned := Step(ttl, start, PruneAt(now, {}, written)).0;
    OrderedAround(before, PruneAt(now, {}, written), after, later);
    PruneKeepsUnexpired(start, now, written);
    RunsStayAlike(ttl, pruned, start, now, after);
    SameUnexpiredLater(RunFrom(ttl, pruned, after), RunFrom(ttl, start, after),
                       if after == [] then now else after[|after| - 1].now, later.now);
    StepRespectsSameUnexpired(ttl, RunFrom(ttl, pruned, after), RunFrom(ttl, start, after), later);
  }

  // ---- Release can observe it: when exactly ----

  /** One prune followed by one release, whatever the two reads miss: the prune changes the release's
      result if and only if it removes a lock that the release would have found. */
  lemma PruneChangesReleaseIff(locks: Locks, key: string, now: real, lost: set<string>, written: bool,
                               lost': set<string>, written': bool)
    ensures Release(Prune(locks, now, lost, written).0, key, lost', written').1 != Release(locks, key, lost', written').1
            <==> && written && written' && key in locks && key !in lost'
                 && AnyExpired(Read(locks, lost), now) && (locks[key].expiry <= now || key in lost)
  {
    if key in locks {
      PruneRemovesIff(locks, now, lost, written, key);
    } else {
      ExpiredAreCounted(Read(locks, lost), now);
    }
  }

  ghost predicate AgreeOn(a: Locks, b: Locks, key: string) {
    (key in a <==> key in b) && (key in a ==> a[key] == b[key])
  }

  /** Expired in `b`, already pruned from `a`. */
  ghost predicate PrunedFrom(a: Locks, b: Locks, key: string, now: real) {
    key !in a && key in b && b[key].expiry <= now
  }

  /** A written release or acquire of the key, or any written prune, settles what becomes of it. */
  predicate Settles(ev: Event, key: string) {
    !ev.CheckAt? && ev.written && (ev.PruneAt? || ev.key == key)
  }

  ghost predicate From(evs: seq<Event>, now: real) {
    forall ev | ev in evs :: now <= ev.now && ev.lost == {}
  }

  ghost predicate Unsettled(evs: seq<Event>, key: string) {
    forall ev | ev in evs :: !Settles(ev, key)
  }

  lemma ReadAll(locks: Locks)
    ensures Read(locks, {}) == locks
  {
  }

  lemma StepAgrees(ttl: real, a: Locks, b: Locks, ev: Event, key: string)
    requires AgreeOn(a, b, key) && ev.lost == {}
    ensures AgreeOn(Step(ttl, a, ev).0, Step(ttl, b, ev).0, key)
  {
    ReadAll(a);
    ReadAll(b);
    if ev.PruneAt? {
      CompletePrune(a, ev.now, ev.written);
      CompletePrune(b, ev.now, ev.written);
    }
  }

  lemma StepSettles(ttl: real, a: Locks, b: Locks, ev: Event, key: string, now: real)
    requires PrunedFrom(a, b, key, now) && now <= ev.now && ev.lost == {}
    ensures if Settles(ev, key) then AgreeOn(Step(ttl, a, ev).0, Step(ttl, b, ev).0, key)
            else PrunedFrom(Step(ttl, a, ev).0, Step(ttl, b, ev).0, key, now)
  {
    ReadAll(a);
    ReadAll(b);
    if ev.PruneAt? {
      CompletePrune(a, ev.now, ev.written);
      CompletePrune(b, ev.now, ev.written);
    }
  }

  lemma {:induction false} RunAgrees(ttl: real, a: Locks, b: Locks, evs: seq<Event>, key: string, now: real)
    requires AgreeOn(a, b, key) && From(evs, now)
    ensures AgreeOn(RunFrom(ttl, a, evs), RunFrom(ttl, b, evs), key)
  {
    if evs != [] {
      var n := |evs| - 1;
      RunAgrees(ttl, a, b, evs[..n], key, now);
      StepAgrees(ttl, RunFrom(ttl, a, evs[..n]), RunFrom(ttl, b, evs[..n]), evs[n], key);
    }
  }

  lemma {:induction false} RunSettles(ttl: real, a: Locks, b: Locks, evs: seq<Event>, key: string, now: real)
    requires PrunedFrom(a, b, key, now) && From(evs, now)
    ensures if Unsettled(evs, key) then PrunedFrom(RunFrom(ttl, a, evs), RunFrom(ttl, b, evs), key, now)
            else AgreeOn(RunFrom(ttl, a, evs), RunFrom(ttl, b, evs), key)
  {
    if evs != [] {
      var n := |evs| - 1;
      var a1, b1 := RunFrom(ttl, a, evs[..n]), RunFrom(ttl, b, evs[..n]);
      RunSettles(ttl, a, b, evs[..n], key, now);
      assert evs == evs[..n] + [evs[n]];
      if Unsettled(evs[..n], key) {
        StepSettles(ttl, a1, b1, evs[n], key, now);
      } else {
        StepAgrees(ttl, a1, b1, evs[n], key);
      }
    }
  }

  /** Over runs that read the whole file: inserting a prune changes the result of a later release of
      a key if and only if both calls write, the prune found the key's lock expired, and nothing in
      between has settled the key. */
  lemma PruneObservedByRelease(ttl: real, before: seq<Event>, now: real, written: bool, after: seq<Event>,
                               key: string, written': bool)
    requires From(after, now)
    ensures var start := RunFrom(ttl, map[], before);
            var pruned := Step(ttl, start, PruneAt(now, {}, written)).0;
            Release(RunFrom(ttl, pruned, after), key, {}, written').1 != Release(RunFrom(ttl, start, after), key, {}, written').1
            <==> written && written' && key in start && start[key].expiry <= now && Unsettled(after, key)
  {
    var start := RunFrom(ttl, map[], before);
    var pruned := Step(ttl, start, PruneAt(now, {}, written)).0;
    CompletePrune(start, now, written);
    ReadAll(RunFrom(ttl, pruned, after));
    ReadAll(RunFrom(ttl, start, after));
    if written && key in start && start[key].expiry <= now {
      RunSettles(ttl, pruned, start, after, key, now);
    } else {
      RunAgrees(ttl, pruned, start, after, key, now);
    }
  }

  /** Such a run: a lock taken for one second has expired after two. Released then, it is there to
      release; pruned first, it is not. */
  lemma PrunedLockIsNotReleased(key: string)
    ensures var start := RunFrom(1.0, map[], [AcquireAt(key, 0.0, {}, true)]);
            && Release(start, key, {}, true).1
            && !Release(Step(1.0, start, PruneAt(2.0, {}, true)).0, key, {}, true).1
  {
    var evs := [AcquireAt(key, 0.0, {}, true)];
    var none: Locks := map[];
    assert evs[..0] == [] && RunFrom(1.0, none, evs[..0]) == none;
    ReadAll(none);
    assert Acquire(1.0, none, key, 0.0, {}, true) == (none[key := Lock(0.0, 1.0)], true);
    var start := RunFrom(1.0, map[], evs);
    assert start == map[key := Lock(0.0, 1.0)];
    ReadAll(start);
    CompletePrune(start, 2.0, true);
    ReadAll(Unexpired(start, 2.0));
  }
}
