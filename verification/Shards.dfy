/**
 Sixty-four hash maps behind one hash function: the layout shared by the replay cache,
 the state store and the DID key cache. The hash is an arbitrary function.
 */
module Shards {

  const NUM_SHARDS: nat := 64

  type ShardId = i: nat | i < NUM_SHARDS witness 0

  /** `hasher.finish() as usize % NUM_SHARDS`, for whichever hasher. */
  type Hash = string -> ShardId

  type Shards<V> = seq<map<string, V>>

  function EmptyShards<V>(): Shards<V> { seq(NUM_SHARDS, _ => map[]) }

  /** Every key of shard `i` hashes to `i`. */
  ghost predicate PlacedIn<V>(m: map<string, V>, h: Hash, i: nat) {
    forall k :: k in m ==> h(k) == i
  }

  /** Every key sits in the shard its hash names. */
  ghost predicate Placed<V>(shards: Shards<V>, h: Hash) {
    && |shards| == NUM_SHARDS
    && (forall i :: 0 <= i < NUM_SHARDS ==> PlacedIn(shards[i], h, i))
  }

  /** No shard holds more than `cap` entries. */
  ghost predicate Bounded<V>(shards: Shards<V>, cap: nat) {
    forall i :: 0 <= i < |shards| ==> |shards[i]| <= cap
  }

  /** `HashMap::retain`. */
  function Retain<V>(m: map<string, V>, keep: V -> bool): (r: map<string, V>)
    ensures forall k :: k in r <==> k in m && keep(m[k])
    ensures forall k :: k in r ==> r[k] == m[k]
    ensures |r| <= |m|
    ensures |r| == |m| ==> r == m
  {
    var r := map k | k in m && keep(m[k]) :: m[k];
    MapSize(r, m);
    r
  }

  lemma MapSize<V>(r: map<string, V>, m: map<string, V>)
    requires forall k :: k in r ==> k in m && r[k] == m[k]
    ensures |r| <= |m|
    ensures |r| == |m| ==> r == m
  {
    assert m.Keys == r.Keys + (m.Keys - r.Keys);
    assert |m.Keys| == |r.Keys| + |m.Keys - r.Keys|;
  }

  /** An insert adds at most one entry. */
  lemma InsertSize<V>(m: map<string, V>, k: string, v: V)
    ensures |m[k := v]| == if k in m then |m| else |m| + 1
  {
    assert m[k := v].Keys == m.Keys + {k};
  }

  /** Entries over all shards from `i` on. */
  function TotalFrom<V>(shards: Shards<V>, i: nat): nat
    requires i <= |shards|
    decreases |shards| - i
  {
    if i == |shards| then 0 else |shards[i]| + TotalFrom(shards, i + 1)
  }

  /** Replacing one shard changes the total by the difference in its size. */
  lemma {:induction false} ReplaceShard<V>(shards: Shards<V>, from: nat, i: nat, m: map<string, V>)
    requires from <= i < |shards|
    ensures TotalFrom(shards[i := m], from) == TotalFrom(shards, from) - |shards[i]| + |m|
    decreases i - from
  {
    var t := shards[i := m];
    if from == i {
      SameTail(shards, t, i + 1);
    } else {
      ReplaceShard(shards, from + 1, i, m);
    }
  }

  lemma {:induction false} SameTail<V>(a: Shards<V>, b: Shards<V>, i: nat)
    requires |a| == |b| && i <= |a| && (forall j :: i <= j < |a| ==> a[j] == b[j])
    ensures TotalFrom(a, i) == TotalFrom(b, i)
    decreases |a| - i
  {
    if i < |a| {
      SameTail(a, b, i + 1);
    }
  }
}
