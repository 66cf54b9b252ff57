/** Time-limited locks in the shared database: one row per lock id, free once its time is past. */
module LockTable {

  type Locks = map<string, int>

  const MUTEX := "__centry_tx_mutex__"
  const MUTEX_TTL := 300_000

  /** The runner's clamp of a requested lifetime: the nearest between 5 seconds and 10 minutes. */
  function Ttl(ms: int): (r: int)
    ensures 5_000 <= r <= 600_000
    ensures r == ms || (ms < 5_000 && r == 5_000) || (ms > 600_000 && r == 600_000)
  {
    if ms < 5_000 then 5_000 else if ms > 600_000 then 600_000 else ms
  }

  /** INSERT, or UPDATE of a row whose time is past: the lock is taken. */
  predicate Free(locks: Locks, id: string, now: int) {
    id in locks ==> locks[id] < now
  }

  function Locked(locks: Locks, id: string, until: int, now: int): Locks {
    if Free(locks, id, now) then locks[id := until] else locks
  }

  /** UPDATE to time zero, whoever holds the lock. */
  function Unlocked(locks: Locks, id: string): Locks {
    if id in locks then locks[id := 0] else locks
  }

  class LockStore {
    var rows: Locks

    constructor ()
      ensures rows == map[]
    {
      rows := map[];
    }

    method TryLock(id: string, ttlMs: int, now: int) returns (ok: bool)
      modifies this
      ensures ok == Free(old(rows), id, now)
      ensures rows == Locked(old(rows), id, now + Ttl(ttlMs), now)
      ensures ok ==> forall t :: now <= t ==> (Free(rows, id, t) <==> t > now + Ttl(ttlMs))
    {
      var lockedUntil := now + Ttl(ttlMs);
      if id !in rows {
        rows := rows[id := lockedUntil];
        return true;
      }
      if rows[id] < now {
        rows := rows[id := lockedUntil];
        return true;
      }
      return false;
    }

    method Unlock(id: string)
      modifies this
      ensures rows == Unlocked(old(rows), id)
      ensures rows.Keys == old(rows).Keys
      ensures forall k, now :: k != id ==> (Free(rows, k, now) <==> Free(old(rows), k, now))
      ensures forall now :: now > 0 ==> Free(rows, id, now)
    {
      if id in rows {
        rows := rows[id := 0];
      }
    }
  }
}
