// Server-authoritative object locks with a lease: the object table, the per-user
// counters kept beside it, and every operation on the two (internal/game/object).

module Locks {
  import opened Common

  type Time = int

  /** lockedBy == "" means unlocked. */
  datatype LockState = LockState(lockedBy: UserID, session: SessionID, until: Time) {
    predicate IsLocked(now: Time) {
      lockedBy != "" && until > now
    }

    predicate IsOwnedBy(user: UserID, now: Time) {
      IsLocked(now) && lockedBy == user
    }
  }

  const UNLOCKED := LockState("", "", 0)

  datatype LockLease = LockLease(ttl: int, maxLocksPerUser: int)

  const DEFAULT_LEASE := LockLease(10_000_000_000, 3)

  datatype ObjectTransform = ObjectTransform(position: Vec3, rotation: Quat)

  datatype ObjectState = ObjectState(
    kind: string,
    transform: ObjectTransform,
    customState: seq<int>,
    active: bool,
    lock: LockState,
    version: nat)

  datatype LockTable = LockTable(objects: map<ObjectID, ObjectState>, counts: map<UserID, int>)

  const EMPTY_TABLE := LockTable(map[], map[])

  function Count(counts: map<UserID, int>, user: UserID): int {
    if user in counts then counts[user] else 0
  }

  datatype Rejection = NotFound | Inactive | LockedByOther | AtLimit | NotOwner

  datatype LockResult = Granted | Rejected(reason: Rejection)

  datatype Outcome = Outcome(table: LockTable, result: LockResult)

  // ----- Object table ------------------------------------------------------------

  function Bumped(o: ObjectState): ObjectState {
    o.(version := Succ32(o.version))
  }

  function Create(t: LockTable, id: ObjectID, kind: string, transform: ObjectTransform): LockTable {
    if id in t.objects then t
    else t.(objects := t.objects[id := ObjectState(kind, transform, [], true, UNLOCKED, 0)])
  }

  function SetTransform(t: LockTable, id: ObjectID, transform: ObjectTransform): LockTable {
    if id !in t.objects then t
    else t.(objects := t.objects[id := Bumped(t.objects[id].(transform := transform))])
  }

  function SetCustomState(t: LockTable, id: ObjectID, state: seq<int>): LockTable {
    if id !in t.objects then t
    else t.(objects := t.objects[id := Bumped(t.objects[id].(customState := state))])
  }

  function MarkInactive(t: LockTable, id: ObjectID): LockTable {
    if id !in t.objects || !t.objects[id].active then t
    else t.(objects := t.objects[id := Bumped(t.objects[id].(active := false))])
  }

  function Remove(t: LockTable, id: ObjectID): LockTable {
    t.(objects := t.objects - {id})
  }

  // ----- Lock operations ---------------------------------------------------------

  function Acquire(t: LockTable, lease: LockLease, id: ObjectID, user: UserID, session: SessionID, now: Time): Outcome {
    if id !in t.objects then Outcome(t, Rejected(NotFound))
    else
      var o := t.objects[id];
      if !o.active then Outcome(t, Rejected(Inactive))
      else if o.lock.IsLocked(now) then
        if o.lock.lockedBy == user then
          Outcome(t.(objects := t.objects[id := Bumped(o.(lock := LockState(user, session, now + lease.ttl)))]),
                  Granted)
        else Outcome(t, Rejected(LockedByOther))
      else if Count(t.counts, user) >= lease.maxLocksPerUser then Outcome(t, Rejected(AtLimit))
      else
        Outcome(LockTable(t.objects[id := Bumped(o.(lock := LockState(user, session, now + lease.ttl)))],
                          t.counts[user := Count(t.counts, user) + 1]),
                Granted)
  }

  function Refresh(t: LockTable, lease: LockLease, id: ObjectID, user: UserID, now: Time): Outcome {
    if id !in t.objects then Outcome(t, Rejected(NotFound))
    else if !t.objects[id].lock.IsOwnedBy(user, now) then Outcome(t, Rejected(NotOwner))
    else
      var o := t.objects[id];
      Outcome(t.(objects := t.objects[id := o.(lock := o.lock.(until := now + lease.ttl))]), Granted)
  }

  /** One lock cleared, its owner's counter lowered. */
  function Cleared(t: LockTable, id: ObjectID): LockTable
    requires id in t.objects
  {
    var o := t.objects[id];
    var owner := o.lock.lockedBy;
    var n := Count(t.counts, owner);
    LockTable(t.objects[id := Bumped(o.(lock := UNLOCKED))],
              if owner == "" || n <= 0 then t.counts
              else if n == 1 then t.counts - {owner}
              else t.counts[owner := n - 1])
  }

  function Release(t: LockTable, id: ObjectID, user: UserID, now: Time): Outcome {
    if id !in t.objects then Outcome(t, Rejected(NotFound))
    else if !t.objects[id].lock.IsOwnedBy(user, now) then Outcome(t, Rejected(NotOwner))
    else Outcome(Cleared(t, id), Granted)
  }

  /** The objects a user holds, lapsed leases included. */
  ghost function HeldBy(objects: map<ObjectID, ObjectState>, user: UserID): set<ObjectID> {
    set id | id in objects && objects[id].lock.lockedBy == user
  }

  /** How many of `ids` the user holds. */
  ghost function Share(objects: map<ObjectID, ObjectState>, ids: set<ObjectID>, user: UserID): nat {
    |ids * HeldBy(objects, user)|
  }

  ghost function CountsWithout(t: LockTable, ids: set<ObjectID>): map<UserID, int> {
    map u | u in t.counts && t.counts[u] > Share(t.objects, ids, u) :: t.counts[u] - Share(t.objects, ids, u)
  }

  ghost function ObjectsWithout(t: LockTable, ids: set<ObjectID>): map<ObjectID, ObjectState> {
    map id | id in t.objects :: if id in ids then Bumped(t.objects[id].(lock := UNLOCKED)) else t.objects[id]
  }

  /** All locks in `ids` cleared, in whatever order: each counter loses its share and
      disappears when it reaches zero. */
  ghost function ReleaseAll(t: LockTable, ids: set<ObjectID>): LockTable {
    LockTable(ObjectsWithout(t, ids), CountsWithout(t, ids))
  }

  /** Counters are stored only while positive. */
  ghost predicate Positive(counts: map<UserID, int>) {
    forall u :: u in counts ==> counts[u] > 0
  }

  ghost function Expired(objects: map<ObjectID, ObjectState>, now: Time): set<ObjectID> {
    set id | id in objects && objects[id].lock.lockedBy != "" && objects[id].lock.until <= now
  }

  ghost function OfSession(objects: map<ObjectID, ObjectState>, session: SessionID): set<ObjectID> {
    set id | id in objects && objects[id].lock.session == session && objects[id].lock.lockedBy != ""
  }

  lemma ShareOneMore(objects: map<ObjectID, ObjectState>, ids: set<ObjectID>, id: ObjectID, u: UserID)
    requires id in objects && id !in ids
    ensures Share(objects, ids + {id}, u) == Share(objects, ids, u) + if objects[id].lock.lockedBy == u then 1 else 0
  {
    var held := HeldBy(objects, u);
    if objects[id].lock.lockedBy == u {
      assert (ids + {id}) * held == ids * held + {id};
    } else {
      assert (ids + {id}) * held == ids * held;
    }
  }

  // Clearing one more lock extends ReleaseAll by that lock, so the sweep's order is immaterial.
  lemma ReleaseOneMore(t: LockTable, ids: set<ObjectID>, id: ObjectID)
    requires id in t.objects && id !in ids && t.objects[id].lock.lockedBy != "" && Positive(t.counts)
    ensures id in ReleaseAll(t, ids).objects
    ensures Cleared(ReleaseAll(t, ids), id) == ReleaseAll(t, ids + {id})
  {
    hide Share;
    var x, y := Cleared(ReleaseAll(t, ids), id), ReleaseAll(t, ids + {id});
    assert x.objects == y.objects;
    forall u
      ensures u in x.counts <==> u in y.counts
      ensures u in x.counts ==> x.counts[u] == y.counts[u]
    {
      ShareOneMore(t.objects, ids, id, u);
    }
    assert x.counts == y.counts;
  }

  lemma ReleaseNone(t: LockTable)
    requires Positive(t.counts)
    ensures ReleaseAll(t, {}) == t
  {
    forall u
      ensures Share(t.objects, {}, u) == 0
    {
      assert {} * HeldBy(t.objects, u) == {};
    }
    hide Share;
    assert CountsWithout(t, {}) == t.counts;
    assert ObjectsWithout(t, {}) == t.objects;
  }
}
