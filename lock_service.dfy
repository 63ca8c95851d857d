/** The Redis-backed lock of the scheduling service: set-if-absent to acquire,
    compare-and-delete (the Lua script) to release. The time-to-live is an
    explicit `Expire` step instead of a wall clock. */
module Locks {

  /** What a lock operation answers, and the key/value store after it. */
  datatype LockStep = LockStep(ok: bool, store: map<string, string>)

  /** `SET key value NX`: succeeds exactly when the key is absent. The winner's
      value is stored; a held key keeps its holder; no other key is touched. */
  function Acquire(store: map<string, string>, key: string, value: string): (r: LockStep)
    ensures r.ok <==> key !in store
    ensures key in r.store && r.store[key] == (if r.ok then value else store[key])
    ensures forall k :: k != key ==> (k in r.store <==> k in store)
    ensures forall k :: k != key && k in store ==> r.store[k] == store[k]
  {
    if key in store then LockStep(false, store) else LockStep(true, store[key := value])
  }

  /** The release script: delete the key only if it currently holds `value`.
      A foreign value or an absent key leaves the store as it was. */
  function Release(store: map<string, string>, key: string, value: string): (r: LockStep)
    ensures r.ok <==> key in store && store[key] == value
    ensures r.ok ==> key !in r.store
    ensures !r.ok ==> r.store == store
    ensures forall k :: k != key ==> (k in r.store <==> k in store)
    ensures forall k :: k != key && k in store ==> r.store[k] == store[k]
  {
    if key in store && store[key] == value then LockStep(true, store - {key}) else LockStep(false, store)
  }

  /** The time-to-live running out: the key disappears whoever holds it. */
  function Expire(store: map<string, string>, key: string): (r: map<string, string>)
    ensures key !in r
    ensures forall k :: k != key ==> (k in r <==> k in store)
    ensures forall k :: k != key && k in store ==> r[k] == store[k]
  {
    store - {key}
  }

  /** An acquire followed by an unconditional delete of the key (the data
      services' `finally`) leaves the store as it was apart from that key. */
  lemma AcquireThenDelete(store: map<string, string>, key: string, value: string)
    ensures Acquire(store, key, value).store - {key} == store - {key}
  {
  }

  /** Mutual exclusion: once `a` holds the key, any other acquire of it fails
      and the key stays with `a`. */
  lemma AcquireExcludes(store: map<string, string>, key: string, a: string, b: string)
    requires Acquire(store, key, a).ok
    ensures !Acquire(Acquire(store, key, a).store, key, b).ok
    ensures Acquire(Acquire(store, key, a).store, key, b).store[key] == a
  {
  }

  /** Ownership: acquiring with `a` and then releasing with `b != a` fails and
      leaves the key held by `a`. */
  lemma ForeignReleaseKeepsHolder(store: map<string, string>, key: string, a: string, b: string)
    requires key !in store && a != b
    ensures !Release(Acquire(store, key, a).store, key, b).ok
    ensures Release(Acquire(store, key, a).store, key, b).store[key] == a
  {
  }

  /** Acquire then release with the same value restores the store, so the next
      acquire succeeds. */
  lemma ReleaseThenReacquire(store: map<string, string>, key: string, a: string, c: string)
    requires key !in store
    ensures Release(Acquire(store, key, a).store, key, a).ok
    ensures Release(Acquire(store, key, a).store, key, a).store == store
    ensures Acquire(Release(Acquire(store, key, a).store, key, a).store, key, c).ok
  {
    assert Acquire(store, key, a).store - {key} == store;
  }

  /** After expiry a new holder can take the key. */
  lemma ExpireFreesKey(store: map<string, string>, key: string, c: string)
    ensures Acquire(Expire(store, key), key, c).ok
  {
  }

  /** `LockService` over a shared key/value store. */
  class LockService {
    var store: map<string, string>

    constructor ()
      ensures store == map[]
    {
      store := map[];
    }

    /** `acquireLock(lockKey, lockValue, timeout)`. */
    method AcquireLock(lockKey: string, lockValue: string) returns (ok: bool)
      modifies this
      ensures ok == Acquire(old(store), lockKey, lockValue).ok
      ensures store == Acquire(old(store), lockKey, lockValue).store
    {
      var step := Acquire(store, lockKey, lockValue);
      store := step.store;
      ok := step.ok;
    }

    /** `releaseLock(lockKey, lockValue)`. */
    method ReleaseLock(lockKey: string, lockValue: string) returns (ok: bool)
      modifies this
      ensures ok == Release(old(store), lockKey, lockValue).ok
      ensures store == Release(old(store), lockKey, lockValue).store
    {
      var step := Release(store, lockKey, lockValue);
      store := step.store;
      ok := step.ok;
    }

    /** The lock's time-to-live elapsing. */
    method ExpireLock(lockKey: string)
      modifies this
      ensures store == Expire(old(store), lockKey)
    {
      store := Expire(store, lockKey);
    }
  }
}
