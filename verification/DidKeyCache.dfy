/**
 The 64-shard TTL cache of resolved signing keys (`DidKeyCache`), over every interleaving of its
 lock-guarded blocks. Clock readings may arrive in any order unless a lemma says otherwise.
 */
module DidKeyCache {
  import opened Text
  import opened Clock
  import opened Shards

  const MAX_PER_SHARD: nat := 512

  /** A curve-typed verifying key, by its encoded point. */
  datatype Key = Secp256k1(point: seq<nat>) | P256(point: seq<nat>)

  datatype Cached = Cached(verifying: Option<seq<nat>>, atproto: Key, resolved: nat)

  type Cache = Shards<Cached>

  function NewEntry(key: Key, now: nat): Cached {
    Cached(if key.Secp256k1? then Some(key.point) else None, key, now)
  }

  predicate Expired(e: Cached, ttl: nat, now: nat) { SatSub(now, e.resolved) >= ttl }

  function YoungerThan(ttl: nat, now: nat): Cached -> bool { (e: Cached) => SatSub(now, e.resolved) < ttl }

  function Lookup(s: Cache, h: Hash, ttl: nat, did: string, now: nat): Option<Cached>
    requires |s| == NUM_SHARDS
  {
    var m := s[h(did)];
    if did in m && !Expired(m[did], ttl, now) then Some(m[did]) else None
  }

  /** A full shard that the DID is not in makes room first. */
  predicate MakesRoom(m: map<string, Cached>, did: string) { |m| >= MAX_PER_SHARD && did !in m }

  /** Dropping the expired entries did not help. */
  predicate MustEvict(m: map<string, Cached>, did: string, ttl: nat, now: nat) {
    MakesRoom(m, did) && |Retain(m, YoungerThan(ttl, now))| >= MAX_PER_SHARD
  }

  ghost predicate IsOldest(m: map<string, Cached>, did: string) {
    did in m && forall d :: d in m ==> m[did].resolved <= m[d].resolved
  }

  /** The shard after an insert; `victim` is the entry `min_by_key` found, if one must go. */
  function InsertInto(m: map<string, Cached>, did: string, key: Key, ttl: nat, now: nat, victim: string)
    : map<string, Cached>
  {
    var room := if MakesRoom(m, did) then Retain(m, YoungerThan(ttl, now)) else m;
    var left := if MustEvict(m, did, ttl, now) then room - {victim} else room;
    left[did := NewEntry(key, now)]
  }

  /** A lock-guarded block: `ClearShard` is one shard's turn of `clear`. */
  datatype Op =
    | Insert(did: string, key: Key, now: nat, victim: string)
    | Invalidate(did: string)
    | ClearShard(shard: ShardId)

  ghost predicate Permitted(m: map<string, Cached>, did: string, ttl: nat, now: nat, victim: string) {
    MustEvict(m, did, ttl, now) ==> IsOldest(Retain(m, YoungerThan(ttl, now)), victim)
  }

  ghost predicate StepsTo(s: Cache, h: Hash, ttl: nat, op: Op, s': Cache) {
    && |s| == NUM_SHARDS
    && match op
       case Insert(did, key, now, victim) =>
         && Permitted(s[h(did)], did, ttl, now, victim)
         && s' == s[h(did) := InsertInto(s[h(did)], did, key, ttl, now, victim)]
       case Invalidate(did) => s' == s[h(did) := s[h(did)] - {did}]
       case ClearShard(i) => s' == s[i := map[]]
  }

  datatype Trace = Trace(ops: seq<Op>, caches: seq<Cache>)

  ghost predicate IsRun(tr: Trace, h: Hash, ttl: nat) {
    && |tr.caches| == |tr.ops| + 1 && tr.caches[0] == EmptyShards()
    && (forall j :: 0 <= j < |tr.ops| ==> StepAt(tr, h, ttl, j))
  }

  /** Block `j` of the run is a step from its cache to the next. */
  ghost predicate StepAt(tr: Trace, h: Hash, ttl: nat, j: nat)
    requires j < |tr.ops| && |tr.caches| == |tr.ops| + 1
  {
    StepsTo(tr.caches[j], h, ttl, tr.ops[j], tr.caches[j + 1])
  }

  ghost predicate Valid(s: Cache, h: Hash) { Placed(s, h) && Bounded(s, MAX_PER_SHARD) }

  // ---------------------------------------------------------------------------------------------
  // Bounds
  // ---------------------------------------------------------------------------------------------

  lemma InsertBounded(m: map<string, Cached>, did: string, key: Key, ttl: nat, now: nat, victim: string)
    requires |m| <= 512 && Permitted(m, did, ttl, now, victim)
    ensures |InsertInto(m, did, key, ttl, now, victim)| <= 512
  {
    var room := if MakesRoom(m, did) then Retain(m, YoungerThan(ttl, now)) else m;
    InsertSize(room, did, NewEntry(key, now));
    if MustEvict(m, did, ttl, now) {
      var left := room - {victim};
      assert left.Keys == room.Keys - {victim};
      InsertSize(left, did, NewEntry(key, now));
    }
  }

  lemma StepValid(s: Cache, h: Hash, ttl: nat, op: Op, s': Cache)
    requires Valid(s, h) && StepsTo(s, h, ttl, op, s')
    ensures Valid(s', h)
  {
    match op
    case Insert(did, key, now, victim) => InsertBounded(s[h(did)], did, key, ttl, now, victim);
    case Invalidate(did) => MapSize(s[h(did)] - {did}, s[h(did)]);
    case ClearShard(i) =>
  }

  lemma {:induction false} RunValid(tr: Trace, h: Hash, ttl: nat, j: nat)
    requires IsRun(tr, h, ttl) && j <= |tr.ops|
    ensures Valid(tr.caches[j], h)
  {
    if j > 0 {
      RunValid(tr, h, ttl, j - 1);
      assert StepAt(tr, h, ttl, j - 1);
      StepValid(tr.caches[j - 1], h, ttl, tr.ops[j - 1], tr.caches[j]);
    }
  }

  // ---------------------------------------------------------------------------------------------
  // Where entries come from
  // ---------------------------------------------------------------------------------------------

  /** The last insert for `did` among the first `j` blocks, unless invalidated or cleared since. */
  function LastInsert(ops: seq<Op>, h: Hash, did: string, j: nat): (r: Option<nat>)
    requires j <= |ops|
    ensures r.Some? ==> r.value < j && ops[r.value].Insert? && ops[r.value].did == did
  {
    if j == 0 then None
    else
      match ops[j - 1]
      case Insert(d, _, _, _) => if d == did then Some(j - 1) else LastInsert(ops, h, did, j - 1)
      case Invalidate(d) => if d == did then None else LastInsert(ops, h, did, j - 1)
      case ClearShard(i) => if h(did) == i then None else LastInsert(ops, h, did, j - 1)
  }

  function EntryOf(op: Op): Cached
    requires op.Insert?
  {
    NewEntry(op.key, op.now)
  }

  /** Everything cached is the entry of its last insert. */
  ghost predicate Genuine(s: Cache, h: Hash, did: string, ops: seq<Op>, last: Option<nat>)
    requires last.Some? ==> last.value < |ops| && ops[last.value].Insert?
  {
    |s| == NUM_SHARDS && (did in s[h(did)] ==> last.Some? && s[h(did)][did] == EntryOf(ops[last.value]))
  }

  lemma {:induction false} RunGenuine(tr: Trace, h: Hash, ttl: nat, did: string, j: nat)
    requires IsRun(tr, h, ttl) && j <= |tr.ops|
    ensures Genuine(tr.caches[j], h, did, tr.ops, LastInsert(tr.ops, h, did, j))
  {
    if j > 0 {
      RunGenuine(tr, h, ttl, did, j - 1);
      assert StepAt(tr, h, ttl, j - 1);
    }
  }

  /** No key is invented and none outlives its TTL. */
  lemma {:induction false} HitIsGenuine(tr: Trace, h: Hash, ttl: nat, did: string, j: nat, now: nat)
    requires IsRun(tr, h, ttl) && j <= |tr.ops| && |tr.caches[j]| == NUM_SHARDS
    ensures var hit := Lookup(tr.caches[j], h, ttl, did, now);
            hit.Some? ==>
              var last := LastInsert(tr.ops, h, did, j);
              && last.Some? && hit.value == EntryOf(tr.ops[last.value])
              && SatSub(now, tr.ops[last.value].now) < ttl
  {
    RunGenuine(tr, h, ttl, did, j);
  }

  // ---------------------------------------------------------------------------------------------
  // Where entries go
  // ---------------------------------------------------------------------------------------------

  /**
   A live entry was pushed out: its shard, full, held nothing but entries live at the insert's clock, and
   none of them was older.
   */
  ghost predicate PushedOut(s: Cache, h: Hash, ttl: nat, op: Op, did: string)
    requires |s| == NUM_SHARDS
  {
    && op.Insert? && h(op.did) == h(did) && op.did != did
    && var m := s[h(did)];
       && |m| == 512 && op.did !in m && IsOldest(m, did)
       && (forall d :: d in m ==> !Expired(m[d], ttl, op.now))
  }

  /** An insert drops only expired entries, or a live one by pushing it out. */
  lemma DropsOnly(s: Cache, h: Hash, ttl: nat, op: Op, s': Cache, did: string)
    requires Valid(s, h) && StepsTo(s, h, ttl, op, s')
    requires op.Insert? && did in s[h(did)] && did !in s'[h(did)]
    ensures Expired(s[h(did)][did], ttl, op.now) || PushedOut(s, h, ttl, op, did)
  {
  }

  ghost predicate ClocksAscend(ops: seq<Op>) {
    forall i, j :: 0 <= i < j < |ops| && ops[i].Insert? && ops[j].Insert? ==> ops[i].now <= ops[j].now
  }

  /** Some block after `from` pushed the live entry out. */
  ghost predicate Evicted(tr: Trace, h: Hash, ttl: nat, did: string, from: nat, j: nat)
    requires IsRun(tr, h, ttl) && j <= |tr.ops|
  {
    exists e :: from < e < j && PushedOutAt(tr, h, ttl, did, e)
  }

  ghost predicate PushedOutAt(tr: Trace, h: Hash, ttl: nat, did: string, e: nat)
    requires IsRun(tr, h, ttl) && e < |tr.ops|
  {
    StepAt(tr, h, ttl, e) && PushedOut(tr.caches[e], h, ttl, tr.ops[e], did)
  }

  /** An absent DID with a standing insert was pushed out since, or expired at some insert's clock. */
  ghost predicate Accounted(tr: Trace, h: Hash, ttl: nat, did: string, j: nat)
    requires IsRun(tr, h, ttl) && j <= |tr.ops|
  {
    var last := LastInsert(tr.ops, h, did, j);
    && |tr.caches[j]| == NUM_SHARDS
    && (last.Some? && did !in tr.caches[j][h(did)] ==>
          || Evicted(tr, h, ttl, did, last.value, j)
          || ExpiredSince(tr.ops, ttl, last.value, j))
  }

  ghost predicate ExpiredSince(ops: seq<Op>, ttl: nat, from: nat, j: nat)
    requires from < j <= |ops| && ops[from].Insert?
  {
    exists e :: from < e < j && ops[e].Insert? && Expired(EntryOf(ops[from]), ttl, ops[e].now)
  }

  lemma AccountedStep(tr: Trace, h: Hash, ttl: nat, did: string, j: nat)
    requires IsRun(tr, h, ttl) && j < |tr.ops| && Valid(tr.caches[j], h)
    requires Accounted(tr, h, ttl, did, j)
    requires Genuine(tr.caches[j], h, did, tr.ops, LastInsert(tr.ops, h, did, j))
    ensures Accounted(tr, h, ttl, did, j + 1)
  {
    var s, op, s' := tr.caches[j], tr.ops[j], tr.caches[j + 1];
    assert StepAt(tr, h, ttl, j);
    var last := LastInsert(tr.ops, h, did, j + 1);
    if last.Some? && did !in s'[h(did)] {
      assert last == LastInsert(tr.ops, h, did, j);
      if did in s[h(did)] {
        assert op.Insert?;
        DropsOnly(s, h, ttl, op, s', did);
        if PushedOut(s, h, ttl, op, did) {
          assert PushedOutAt(tr, h, ttl, did, j);
        }
      } else if Evicted(tr, h, ttl, did, last.value, j) {
        var e :| last.value < e < j && PushedOutAt(tr, h, ttl, did, e);
      }
    }
  }

  lemma {:induction false} RunAccounted(tr: Trace, h: Hash, ttl: nat, did: string, j: nat)
    requires IsRun(tr, h, ttl) && j <= |tr.ops|
    ensures Accounted(tr, h, ttl, did, j)
  {
    if j > 0 {
      RunAccounted(tr, h, ttl, did, j - 1);
      RunValid(tr, h, ttl, j - 1);
      RunGenuine(tr, h, ttl, did, j - 1);
      AccountedStep(tr, h, ttl, did, j - 1);
    }
  }

  /**
   With nondecreasing clocks a key whose last insert is still within its TTL is missed only because its
   live entry was pushed out of a shard full of live entries in which none was older.
   */
  lemma {:induction false} MissIsEviction(tr: Trace, h: Hash, ttl: nat, did: string, j: nat, now: nat)
    requires IsRun(tr, h, ttl) && ClocksAscend(tr.ops) && j <= |tr.ops| && |tr.caches[j]| == NUM_SHARDS
    requires forall e :: 0 <= e < j && tr.ops[e].Insert? ==> tr.ops[e].now <= now
    requires LastInsert(tr.ops, h, did, j).Some?
    requires SatSub(now, tr.ops[LastInsert(tr.ops, h, did, j).value].now) < ttl
    requires Lookup(tr.caches[j], h, ttl, did, now).None?
    ensures Evicted(tr, h, ttl, did, LastInsert(tr.ops, h, did, j).value, j)
  {
    RunAccounted(tr, h, ttl, did, j);
    RunGenuine(tr, h, ttl, did, j);
  }

  /** `get` is `get_atproto_key` restricted to secp256k1, in every reachable cache. */
  lemma GettersAgree(tr: Trace, h: Hash, ttl: nat, did: string, j: nat, now: nat, point: seq<nat>)
    requires IsRun(tr, h, ttl) && j <= |tr.ops| && |tr.caches[j]| == NUM_SHARDS
    ensures Get(tr.caches[j], h, ttl, did, now) == Some(point)
            <==> GetAtproto(tr.caches[j], h, ttl, did, now) == Some(Secp256k1(point))
  {
    RunGenuine(tr, h, ttl, did, j);
  }

  function Get(s: Cache, h: Hash, ttl: nat, did: string, now: nat): Option<seq<nat>>
    requires |s| == NUM_SHARDS
  {
    var e := Lookup(s, h, ttl, did, now);
    if e.Some? then e.value.verifying else None
  }

  function GetAtproto(s: Cache, h: Hash, ttl: nat, did: string, now: nat): Option<Key>
    requires |s| == NUM_SHARDS
  {
    var e := Lookup(s, h, ttl, did, now);
    if e.Some? then Some(e.value.atproto) else None
  }

  /** A hit hands out the key of its last insert, whatever its curve; `get` only if it is on secp256k1. */
  lemma {:induction false} KeyOfLastInsert(tr: Trace, h: Hash, ttl: nat, did: string, j: nat, now: nat)
    requires IsRun(tr, h, ttl) && j <= |tr.ops| && |tr.caches[j]| == NUM_SHARDS
    requires Lookup(tr.caches[j], h, ttl, did, now).Some?
    ensures var last := LastInsert(tr.ops, h, did, j);
            && last.Some?
            && var key := tr.ops[last.value].key;
               && GetAtproto(tr.caches[j], h, ttl, did, now) == Some(key)
               && Get(tr.caches[j], h, ttl, did, now) == if key.Secp256k1? then Some(key.point) else None
  {
    RunGenuine(tr, h, ttl, did, j);
  }

  /** The bounds of a life: a key is handed out right after its insert, unless the TTL is zero, and never from the TTL on. */
  lemma FreshKeyIsFound(s: Cache, h: Hash, ttl: nat, did: string, key: Key, now: nat, victim: string, s': Cache, later: nat)
    requires StepsTo(s, h, ttl, Insert(did, key, now, victim), s') && |s'| == NUM_SHARDS
    ensures GetAtproto(s', h, ttl, did, later) == if SatSub(later, now) < ttl then Some(key) else None
  {
  }

  // ---------------------------------------------------------------------------------------------
  // The object
  // ---------------------------------------------------------------------------------------------

  /** `min_by_key` over the shard. */
  method Oldest(m: map<string, Cached>) returns (did: string)
    requires m != map[]
    ensures IsOldest(m, did)
  {
    assert m.Keys != {};
    did :| did in m.Keys;
    var rest := m.Keys - {did};
    while rest != {}
      invariant did in m && rest <= m.Keys
      invariant forall d :: d in m && d !in rest ==> m[did].resolved <= m[d].resolved
      decreases |rest|
    {
      var d :| d in rest;
      if m[d].resolved < m[did].resolved {
        did := d;
      }
      rest := rest - {d};
    }
  }

  class KeyCache {
    const hash: Hash
    const ttl: nat
    var shards: Cache

    ghost predicate Ok()
      reads this
    {
      Valid(shards, hash)
    }

    constructor (h: Hash, ttlSecs: nat)
      ensures hash == h && ttl == ttlSecs && shards == EmptyShards() && Ok()
    {
      hash, ttl := h, ttlSecs;
      shards := EmptyShards();
    }

    method GetKey(did: string, now: nat) returns (r: Option<seq<nat>>)
      requires Ok()
      ensures r == Get(shards, hash, ttl, did, now)
    {
      var shard := shards[hash(did)];
      if did !in shard {
        return None;
      }
      if SatSub(now, shard[did].resolved) >= ttl {
        return None;
      }
      return shard[did].verifying;
    }

    method GetAtprotoKey(did: string, now: nat) returns (r: Option<Key>)
      requires Ok()
      ensures r == GetAtproto(shards, hash, ttl, did, now)
    {
      var shard := shards[hash(did)];
      if did !in shard {
        return None;
      }
      if SatSub(now, shard[did].resolved) >= ttl {
        return None;
      }
      return Some(shard[did].atproto);
    }

    method InsertAtprotoKey(did: string, key: Key, now: nat) returns (ghost victim: string)
      requires Ok()
      modifies this
      ensures Ok()
      ensures StepsTo(old(shards), hash, ttl, Insert(did, key, now, victim), shards)
    {
      var idx := hash(did);
      var m := shards[idx];
      victim := "";
      if |m| >= MAX_PER_SHARD && did !in m {
        m := Retain(m, YoungerThan(ttl, now));
        if |m| >= MAX_PER_SHARD {
          var oldest := Oldest(m);
          victim := oldest;
          m := m - {oldest};
        }
      }
      shards := shards[idx := m[did := NewEntry(key, now)]];
      StepValid(old(shards), hash, ttl, Insert(did, key, now, victim), shards);
    }

    method InvalidateKey(did: string)
      requires Ok()
      modifies this
      ensures Ok()
      ensures StepsTo(old(shards), hash, ttl, Invalidate(did), shards)
    {
      shards := shards[hash(did) := shards[hash(did)] - {did}];
      StepValid(old(shards), hash, ttl, Invalidate(did), shards);
    }

    /** Clear shard after shard. */
    method Clear()
      requires Ok()
      modifies this
      ensures Ok() && shards == EmptyShards()
    {
      for i := 0 to NUM_SHARDS
        invariant Ok()
        invariant forall j :: 0 <= j < i ==> shards[j] == map[]
      {
        StepValid(shards, hash, ttl, ClearShard(i), shards[i := map[]]);
        shards := shards[i := map[]];
      }
    }

    /** Cache first; a miss asks the resolver, whose answer is `resolved`, and caches it. */
    method ResolveAtprotoKey(did: string, validDid: bool, now: nat, resolved: Option<Key>) returns (r: Option<Key>)
      requires Ok()
      modifies this
      ensures Ok()
      ensures r == if !validDid then None
                   else if GetAtproto(old(shards), hash, ttl, did, now).Some? then GetAtproto(old(shards), hash, ttl, did, now)
                   else resolved
      ensures r.None? || GetAtproto(old(shards), hash, ttl, did, now).Some? ==> shards == old(shards)
      ensures validDid && GetAtproto(old(shards), hash, ttl, did, now).None? && resolved.Some? ==>
                exists victim :: StepsTo(old(shards), hash, ttl, Insert(did, resolved.value, now, victim), shards)
      ensures r.Some? && ttl > 0 ==> GetAtproto(shards, hash, ttl, did, now) == r
    {
      if !validDid {
        return None;
      }
      var hit := GetAtprotoKey(did, now);
      if hit.Some? {
        return hit;
      }
      if resolved.Some? {
        var victim := InsertAtprotoKey(did, resolved.value, now);
      }
      return resolved;
    }
  }
}
