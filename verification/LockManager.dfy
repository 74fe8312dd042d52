// The object table and the lock manager as they run: maps mutated in place,
// with sweeping loops over all objects in map order.

module LockManagement {
  import opened Common
  import opened Locks

  class ObjectManager {
    var objects: map<ObjectID, ObjectState>

    constructor ()
      ensures objects == map[]
    {
      objects := map[];
    }

    /** The table with some counters, for stating what an update does. */
    ghost function With(counts: map<UserID, int>): LockTable
      reads this
    {
      LockTable(objects, counts)
    }

    method CreateObject(id: ObjectID, kind: string, transform: ObjectTransform) returns (ok: bool)
      modifies this
      ensures ok <==> id !in old(objects)
      ensures forall counts :: With(counts) == Create(old(With(counts)), id, kind, transform)
    {
      ok := id !in objects;
      if ok {
        objects := objects[id := ObjectState(kind, transform, [], true, UNLOCKED, 0)];
      }
    }

    method UpdateTransform(id: ObjectID, transform: ObjectTransform) returns (ok: bool)
      modifies this
      ensures ok <==> id in old(objects)
      ensures forall counts :: With(counts) == SetTransform(old(With(counts)), id, transform)
    {
      ok := id in objects;
      if ok {
        objects := objects[id := Bumped(objects[id].(transform := transform))];
      }
    }

    method UpdateCustomState(id: ObjectID, state: seq<int>) returns (ok: bool)
      modifies this
      ensures ok <==> id in old(objects)
      ensures forall counts :: With(counts) == SetCustomState(old(With(counts)), id, state)
    {
      ok := id in objects;
      if ok {
        objects := objects[id := Bumped(objects[id].(customState := state))];
      }
    }

    method MarkObjectInactive(id: ObjectID) returns (ok: bool)
      modifies this
      ensures ok <==> id in old(objects)
      ensures forall counts :: With(counts) == MarkInactive(old(With(counts)), id)
    {
      ok := id in objects;
      if ok && objects[id].active {
        objects := objects[id := Bumped(objects[id].(active := false))];
      }
    }

    method RemoveObject(id: ObjectID)
      modifies this
      ensures forall counts :: With(counts) == Remove(old(With(counts)), id)
    {
      objects := objects - {id};
    }
  }

  class LockManager {
    const objects: ObjectManager
    const lease: LockLease
    var userLockCount: map<UserID, int>

    ghost function Table(): LockTable
      reads this, objects
    {
      LockTable(objects.objects, userLockCount)
    }

    ghost predicate Valid()
      reads this
    {
      Positive(userLockCount)
    }

    constructor (objects: ObjectManager, lease: LockLease)
      ensures Valid() && this.objects == objects && this.lease == lease
      ensures Table() == LockTable(objects.objects, map[])
    {
      this.objects := objects;
      this.lease := lease;
      userLockCount := map[];
    }

    method AcquireLock(id: ObjectID, user: UserID, session: SessionID, now: Time) returns (r: LockResult)
      requires Valid()
      modifies this, objects
      ensures Valid()
      ensures Outcome(Table(), r) == Acquire(old(Table()), lease, id, user, session, now)
    {
      if id !in objects.objects {
        return Rejected(NotFound);
      }
      var obj := objects.objects[id];
      if !obj.active {
        return Rejected(Inactive);
      }
      if obj.lock.IsLocked(now) {
        if obj.lock.lockedBy == user {
          obj := obj.(lock := obj.lock.(until := now + lease.ttl, session := session));
          objects.objects := objects.objects[id := Bumped(obj)];
          return Granted;
        }
        return Rejected(LockedByOther);
      }
      if Count(userLockCount, user) >= lease.maxLocksPerUser {
        return Rejected(AtLimit);
      }
      PositiveGrows(userLockCount, user);
      objects.objects := objects.objects[id := Bumped(obj.(lock := LockState(user, session, now + lease.ttl)))];
      userLockCount := userLockCount[user := Count(userLockCount, user) + 1];
      r := Granted;
    }

    lemma PositiveGrows(counts: map<UserID, int>, user: UserID)
      requires Positive(counts)
      ensures Positive(counts[user := Count(counts, user) + 1])
    {
    }

    method RefreshLock(id: ObjectID, user: UserID, now: Time) returns (r: LockResult)
      requires Valid()
      modifies objects
      ensures Valid()
      ensures Outcome(Table(), r) == Refresh(old(Table()), lease, id, user, now)
    {
      if id !in objects.objects {
        return Rejected(NotFound);
      }
      var obj := objects.objects[id];
      if !obj.lock.IsOwnedBy(user, now) {
        return Rejected(NotOwner);
      }
      objects.objects := objects.objects[id := obj.(lock := obj.lock.(until := now + lease.ttl))];
      r := Granted;
    }

    method ReleaseLock(id: ObjectID, user: UserID, now: Time) returns (r: LockResult)
      requires Valid()
      modifies this, objects
      ensures Valid()
      ensures Outcome(Table(), r) == Release(old(Table()), id, user, now)
    {
      if id !in objects.objects {
        return Rejected(NotFound);
      }
      if !objects.objects[id].lock.IsOwnedBy(user, now) {
        return Rejected(NotOwner);
      }
      ClearLock(id);
      r := Granted;
    }

    method ClearLock(id: ObjectID)
      requires Valid() && id in objects.objects
      modifies this, objects
      ensures Valid() && Table() == Cleared(old(Table()), id)
    {
      var obj := objects.objects[id];
      var owner := obj.lock.lockedBy;
      if owner != "" && Count(userLockCount, owner) > 0 {
        userLockCount := userLockCount[owner := Count(userLockCount, owner) - 1];
        if userLockCount[owner] == 0 {
          userLockCount := userLockCount - {owner};
        }
      }
      objects.objects := objects.objects[id := Bumped(obj.(lock := UNLOCKED))];
      assert Table().counts == Cleared(old(Table()), id).counts;
    }

    method ReleaseExpired(now: Time) returns (released: seq<ObjectID>)
      requires Valid()
      modifies this, objects
      ensures Valid()
      ensures Table() == ReleaseAll(old(Table()), Expired(old(objects.objects), now))
      ensures Enumerates(released, Expired(old(objects.objects), now))
    {
      ghost var t := Table();
      ghost var gone: set<ObjectID> := {};
      ReleaseNone(t);
      hide ReleaseAll, Cleared;
      released := [];
      var rest := objects.objects.Keys;
      while rest != {}
        invariant Valid() && rest <= t.objects.Keys && gone <= t.objects.Keys - rest
        invariant Table() == ReleaseAll(t, gone) && Untouched(t, gone)
        invariant gone == Expired(t.objects, now) - rest
        invariant Enumerates(released, gone)
      {
        var id :| id in rest;
        rest := rest - {id};
        var lock := objects.objects[id].lock;
        if lock.lockedBy != "" && lock.until <= now {
          released := released + [id];
          ReleaseOneMore(t, gone, id);
          ClearLock(id);
          gone := gone + {id};
        }
        TouchedAll(t, gone);
      }
      assert gone == Expired(t.objects, now);
    }

    method ReleaseBySession(session: SessionID) returns (released: seq<ObjectID>)
      requires Valid()
      modifies this, objects
      ensures Valid()
      ensures Table() == ReleaseAll(old(Table()), OfSession(old(objects.objects), session))
      ensures Enumerates(released, OfSession(old(objects.objects), session))
    {
      ghost var t := Table();
      ghost var gone: set<ObjectID> := {};
      ReleaseNone(t);
      hide ReleaseAll, Cleared;
      released := [];
      var rest := objects.objects.Keys;
      while rest != {}
        invariant Valid() && rest <= t.objects.Keys && gone <= t.objects.Keys - rest
        invariant Table() == ReleaseAll(t, gone) && Untouched(t, gone)
        invariant gone == OfSession(t.objects, session) - rest
        invariant Enumerates(released, gone)
      {
        var id :| id in rest;
        rest := rest - {id};
        var lock := objects.objects[id].lock;
        if lock.session == session && lock.lockedBy != "" {
          released := released + [id];
          ReleaseOneMore(t, gone, id);
          ClearLock(id);
          gone := gone + {id};
        }
        TouchedAll(t, gone);
      }
      assert gone == OfSession(t.objects, session);
    }

    method UserLockCount(user: UserID) returns (n: int)
      requires Valid()
      ensures n == Count(Table().counts, user) && n >= 0
    {
      n := Count(userLockCount, user);
    }
  }

  /** Objects outside `gone` are as they were. */
  ghost predicate Untouched(t: LockTable, gone: set<ObjectID>) {
    var now := ReleaseAll(t, gone).objects;
    now.Keys == t.objects.Keys && forall id :: id in t.objects && id !in gone ==> now[id] == t.objects[id]
  }

  lemma TouchedAll(t: LockTable, gone: set<ObjectID>)
    ensures Untouched(t, gone)
  {
  }
}
