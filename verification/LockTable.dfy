/**
 The bounded per-subject mutex table behind refresh single-flight (`RefreshSingleFlight`).

 A mutex is named by a `LockId`; `referenced` is the set of locks of which some task holds a clone,
 so `Arc::strong_count(m) > 1` reads `m in referenced`.
 */
module LockTable {
  import opened Text

  const MAX_TRACKED_REFRESH_SUBJECTS: nat := 4096

  type Subject = string
  type LockId = nat
  type Table = map<Subject, LockId>

  /** The idle sweep: keep exactly the entries some task still references. */
  function IdleSweep(locks: Table, referenced: set<LockId>): (r: Table)
    ensures r.Keys <= locks.Keys
    ensures forall s :: s in r <==> s in locks && locks[s] in referenced
    ensures forall s :: s in r ==> r[s] == locks[s]
    ensures |r| <= |locks|
  {
    var r := map s | s in locks && locks[s] in referenced :: locks[s];
    SubsetSize(r.Keys, locks.Keys);
    r
  }

  lemma SubsetSize<T>(a: set<T>, b: set<T>)
    requires a <= b
    ensures |a| <= |b|
    ensures |a| == |b| ==> a == b
  {
    assert b == a + (b - a);
    assert |b| == |a| + |b - a|;
  }

  /** An insert of a new subject has to drop an entry that is in use. */
  predicate MustEvict(locks: Table, referenced: set<LockId>) {
    && |locks| >= MAX_TRACKED_REFRESH_SUBJECTS
    && |IdleSweep(locks, referenced)| >= MAX_TRACKED_REFRESH_SUBJECTS
  }

  /** The table after room was made for one more entry; `victim` is whichever key iterates first. */
  function MakeRoom(locks: Table, referenced: set<LockId>, victim: Subject): Table {
    if |locks| < MAX_TRACKED_REFRESH_SUBJECTS then locks
    else
      var swept := IdleSweep(locks, referenced);
      if |swept| < MAX_TRACKED_REFRESH_SUBJECTS then swept else swept - {victim}
  }

  /** What making room may cost: nothing in use is dropped unless `MustEvict`, and then only the victim. */
  lemma MakeRoomKeepsReferenced(locks: Table, referenced: set<LockId>, victim: Subject)
    requires |locks| <= MAX_TRACKED_REFRESH_SUBJECTS
    requires MustEvict(locks, referenced) ==> victim in IdleSweep(locks, referenced)
    ensures var room := MakeRoom(locks, referenced, victim);
            && |room| < MAX_TRACKED_REFRESH_SUBJECTS
            && (forall s :: s in room ==> s in locks && room[s] == locks[s])
            && (forall s :: s in locks && locks[s] in referenced && s !in room ==>
                              MustEvict(locks, referenced) && s == victim)
            && (MustEvict(locks, referenced) ==> locks[victim] in referenced && victim !in room)
  {
    if MustEvict(locks, referenced) {
      var swept := IdleSweep(locks, referenced);
      assert (swept - {victim}).Keys == swept.Keys - {victim};
    }
  }

  /** The mutex table, updated in place. */
  class RefreshSingleFlight {
    var locks: Table
    var nextLock: LockId

    ghost predicate Valid()
      reads this
    {
      && |locks| <= MAX_TRACKED_REFRESH_SUBJECTS
      && (forall s :: s in locks ==> locks[s] < nextLock)
    }

    constructor ()
      ensures Valid() && locks == map[] && nextLock == 0
    {
      locks := map[];
      nextLock := 0;
    }

    /** The shared-lock fast path. */
    method ReadLookup(sub: Subject) returns (found: Option<LockId>)
      ensures found == if sub in locks then Some(locks[sub]) else None
    {
      if sub in locks {
        return Some(locks[sub]);
      }
      return None;
    }

    /** The exclusive path: look again, make room when full, insert a fresh mutex. */
    method WriteLookup(sub: Subject, referenced: set<LockId>) returns (lock: LockId, victim: Subject)
      requires Valid()
      modifies this
      ensures Valid()
      ensures sub in old(locks) ==> lock == old(locks[sub]) && locks == old(locks) && nextLock == old(nextLock)
      ensures sub !in old(locks) ==>
                && lock == old(nextLock) && nextLock == old(nextLock) + 1
                && (MustEvict(old(locks), referenced) ==> victim in IdleSweep(old(locks), referenced))
                && locks == MakeRoom(old(locks), referenced, victim)[sub := lock]
      ensures sub in locks && locks[sub] == lock
    {
      victim := "";
      if sub in locks {
        return locks[sub], victim;
      }
      ghost var before := locks;
      if |locks| >= MAX_TRACKED_REFRESH_SUBJECTS {
        locks := IdleSweep(locks, referenced);
        if |locks| >= MAX_TRACKED_REFRESH_SUBJECTS {
          assert |locks.Keys| > 0;
          victim :| victim in locks;
          locks := locks - {victim};
        }
      }
      MakeRoomKeepsReferenced(before, referenced, victim);
      assert locks == MakeRoom(before, referenced, victim);
      lock := nextLock;
      nextLock := nextLock + 1;
      assert locks[sub := lock].Keys == locks.Keys + {sub};
      locks := locks[sub := lock];
    }
  }
}
