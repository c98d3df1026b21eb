/**
 The 64-shard single-use OAuth state store (`OAuthStateStore`), over every interleaving of its
 lock-guarded blocks. Instants are natural numbers of seconds.
 */
module StateStore {
  import opened Text
  import opened Clock
  import opened Shards

  const SHARD_ADMISSION_CAPACITY: nat := 1024
  const INSTANT_MAX: nat := 0x7FFF_FFFF_FFFF_FFFF
  const YEAR: nat := 86400 * 365

  /** The stored authorization request; the fields that do not matter here are left out. */
  datatype Entry = Entry(state: string, clientId: string, codeVerifier: string, issuer: string)

  datatype Record = Record(entry: Entry, created: nat, expires: nat)

  /** `Instant::checked_add`, with the one-year fallback on overflow. */
  function NewRecord(entry: Entry, ttl: nat, now: nat): Record {
    Record(entry, now, if now + ttl <= INSTANT_MAX then now + ttl else now + YEAR)
  }

  /** `is_expired`, with its clock-warp guard. */
  predicate IsExpired(r: Record, now: nat) {
    now >= r.expires || SatSub(now, r.created) >= SatSub(r.expires, r.created)
  }

  function Current(now: nat): Record -> bool { r => !IsExpired(r, now) }

  type Store = Shards<Record>

  /** One shard's part of an insert; `now` is read only when the shard is full. */
  function Admit(m: map<string, Record>, state: string, r: Record, now: nat): (map<string, Record>, bool) {
    if |m| < SHARD_ADMISSION_CAPACITY then (m[state := r], true)
    else
      var q := Retain(m, Current(now));
      if |q| < SHARD_ADMISSION_CAPACITY then (q[state := r], true) else (q, false)
  }

  function Remove(m: map<string, Record>, state: string, now: nat): (map<string, Record>, Option<Entry>) {
    if state !in m then (m, None)
    else (m - {state}, if IsExpired(m[state], now) then None else Some(m[state].entry))
  }

  /**
   A lock-guarded block of some thread. An insert made its record (`created`) before taking the lock;
   `Prune` is one shard's turn of `prune_expired_sync` with the clock captured at its start.
   */
  datatype Op =
    | Insert(state: string, entry: Entry, ttl: nat, created: nat, now: nat)
    | Take(state: string, now: nat)
    | Contains(state: string, now: nat)
    | Prune(shard: ShardId, now: nat)

  datatype Reply = Inserted(ok: bool) | Took(entry: Option<Entry>) | Had(present: bool) | Pruned

  function Step(s: Store, h: Hash, op: Op): (r: (Store, Reply))
    requires |s| == NUM_SHARDS
    ensures |r.0| == NUM_SHARDS
  {
    match op
    case Insert(k, entry, ttl, created, now) =>
      var (m, ok) := Admit(s[h(k)], k, NewRecord(entry, ttl, created), now);
      (s[h(k) := m], Inserted(ok))
    case Take(k, now) =>
      var (m, e) := Remove(s[h(k)], k, now);
      (s[h(k) := m], Took(e))
    case Contains(k, now) => (s, Had(k in s[h(k)] && !IsExpired(s[h(k)][k], now)))
    case Prune(i, now) => (s[i := Retain(s[i], Current(now))], Pruned)
  }

  ghost predicate Valid(s: Store, h: Hash) { Placed(s, h) && Bounded(s, SHARD_ADMISSION_CAPACITY) }

  /** A run from the empty store: the blocks in lock order, the stores they went through, their replies. */
  datatype Trace = Trace(ops: seq<Op>, stores: seq<Store>, replies: seq<Reply>)

  ghost predicate IsRun(tr: Trace, h: Hash) {
    && |tr.stores| == |tr.ops| + 1 && |tr.replies| == |tr.ops| && tr.stores[0] == EmptyShards()
    && (forall j :: 0 <= j < |tr.ops| ==> StepAt(tr, h, j))
  }

  /** Block `j` of the run is a step from its store to the next. */
  ghost predicate StepAt(tr: Trace, h: Hash, j: nat)
    requires j < |tr.ops| == |tr.replies| && |tr.stores| == |tr.ops| + 1
  {
    && |tr.stores[j]| == NUM_SHARDS
    && tr.stores[j + 1] == Step(tr.stores[j], h, tr.ops[j]).0 && tr.replies[j] == Step(tr.stores[j], h, tr.ops[j]).1
  }

  // ---------------------------------------------------------------------------------------------
  // What a run says about a token, without looking at the store
  // ---------------------------------------------------------------------------------------------

  predicate Stores(op: Op, r: Reply, k: string) { op.Insert? && op.state == k && r == Inserted(true) }

  predicate Takes(op: Op, k: string) { op.Take? && op.state == k }

  /** The last successful insert of the token with no take of it since. */
  function Outstanding(ops: seq<Op>, rs: seq<Reply>, k: string, j: nat): (r: Option<nat>)
    requires j <= |ops| == |rs|
    ensures r.Some? ==> r.value < j && Stores(ops[r.value], rs[r.value], k)
  {
    if j == 0 then None
    else if Stores(ops[j - 1], rs[j - 1], k) then Some(j - 1)
    else if Takes(ops[j - 1], k) then None
    else Outstanding(ops, rs, k, j - 1)
  }

  lemma {:induction false} OutstandingIsLatest(ops: seq<Op>, rs: seq<Reply>, k: string, j: nat)
    requires j <= |ops| == |rs| && Outstanding(ops, rs, k, j).Some?
    ensures forall m :: Outstanding(ops, rs, k, j).value < m < j ==> !Takes(ops[m], k) && !Stores(ops[m], rs[m], k)
  {
    if !Stores(ops[j - 1], rs[j - 1], k) {
      OutstandingIsLatest(ops, rs, k, j - 1);
    }
  }

  function RecordOf(op: Op): Record
    requires op.Insert?
  {
    NewRecord(op.entry, op.ttl, op.created)
  }

  /** Clocks read under the locks never go back; prunes may carry an old one. */
  predicate Timely(ops: seq<Op>, j: nat, t: nat)
    requires j <= |ops|
    decreases |ops| - j
  {
    j < |ops| ==> (ops[j].Prune? || ops[j].now >= t) && Timely(ops, j + 1, if ops[j].now > t then ops[j].now else t)
  }

  /** The largest clock among the first `j` blocks. */
  function Latest(ops: seq<Op>, j: nat): nat
    requires j <= |ops|
  {
    if j == 0 then 0 else var t := Latest(ops, j - 1); if ops[j - 1].now > t then ops[j - 1].now else t
  }

  lemma {:induction false} TimelyAt(ops: seq<Op>, j: nat, n: nat)
    requires j <= n < |ops| && Timely(ops, j, Latest(ops, j)) && !ops[n].Prune?
    ensures ops[n].now >= Latest(ops, n)
    decreases n - j
  {
    if j < n {
      TimelyAt(ops, j + 1, n);
    }
  }

  /** A stored record is that of the outstanding insert. */
  ghost predicate Recalls(m: map<string, Record>, k: string, ops: seq<Op>, o: Option<nat>)
    requires o.Some? ==> o.value < |ops| && ops[o.value].Insert?
  {
    k in m ==> o.Some? && m[k] == RecordOf(ops[o.value])
  }

  /** What shard entry the run's history calls for. */
  ghost predicate Explains(m: map<string, Record>, k: string, ops: seq<Op>, o: Option<nat>, t: nat)
    requires o.Some? ==> o.value < |ops| && ops[o.value].Insert?
  {
    && Recalls(m, k, ops, o)
    && (o.Some? && !IsExpired(RecordOf(ops[o.value]), t) ==> k in m)
  }

  /** After `j` blocks every stored record is the outstanding one, and every outstanding one that is current is stored. */
  ghost predicate Tracks(s: Store, h: Hash, ops: seq<Op>, rs: seq<Reply>, j: nat, t: nat)
    requires |s| == NUM_SHARDS && j <= |ops| == |rs|
  {
    forall k :: Explains(s[h(k)], k, ops, Outstanding(ops, rs, k, j), t)
  }

  lemma ExpiryIsFinal(r: Record, now: nat, later: nat)
    requires IsExpired(r, now) && now <= later
    ensures IsExpired(r, later)
  {
  }

  lemma RetainExplains(m: map<string, Record>, now: nat, k: string, ops: seq<Op>, o: Option<nat>, t: nat, t': nat)
    requires o.Some? ==> o.value < |ops| && ops[o.value].Insert?
    requires Explains(m, k, ops, o, t) && t <= t' && now <= t'
    ensures Explains(Retain(m, Current(now)), k, ops, o, t')
  {
    if o.Some? {
      var r := RecordOf(ops[o.value]);
      if IsExpired(r, t) {
        ExpiryIsFinal(r, t, t');
      }
      if IsExpired(r, now) {
        ExpiryIsFinal(r, now, t');
      }
    }
  }

  /** Time passes: a record that is still current was current before. */
  lemma LaterExplains(m: map<string, Record>, k: string, ops: seq<Op>, o: Option<nat>, t: nat, t': nat)
    requires o.Some? ==> o.value < |ops| && ops[o.value].Insert?
    requires Explains(m, k, ops, o, t) && t <= t'
    ensures Explains(m, k, ops, o, t')
  {
    if o.Some? && IsExpired(RecordOf(ops[o.value]), t) {
      ExpiryIsFinal(RecordOf(ops[o.value]), t, t');
    }
  }

  lemma InsertExplains(m: map<string, Record>, k: string, ops: seq<Op>, rs: seq<Reply>, j: nat, t: nat)
    requires j < |ops| == |rs| && ops[j].Insert? && ops[j].now >= t
    requires Explains(m, k, ops, Outstanding(ops, rs, k, j), t)
    requires rs[j] == Inserted(Admit(m, ops[j].state, RecordOf(ops[j]), ops[j].now).1)
    ensures Explains(Admit(m, ops[j].state, RecordOf(ops[j]), ops[j].now).0, k, ops, Outstanding(ops, rs, k, j + 1), ops[j].now)
  {
    var op, o := ops[j], Outstanding(ops, rs, k, j);
    RetainExplains(m, op.now, k, ops, o, t, op.now);
    LaterExplains(m, k, ops, o, t, op.now);
  }

  lemma TakeExplains(m: map<string, Record>, k: string, ops: seq<Op>, rs: seq<Reply>, j: nat, t: nat)
    requires j < |ops| == |rs| && ops[j].Take? && ops[j].now >= t
    requires Explains(m, k, ops, Outstanding(ops, rs, k, j), t)
    ensures Explains(Remove(m, ops[j].state, ops[j].now).0, k, ops, Outstanding(ops, rs, k, j + 1), ops[j].now)
  {
    LaterExplains(m, k, ops, Outstanding(ops, rs, k, j), t, ops[j].now);
  }

  lemma {:induction false} StepExplains(s: Store, h: Hash, k: string, ops: seq<Op>, rs: seq<Reply>, j: nat, t: nat)
    requires |s| == NUM_SHARDS && j < |ops| == |rs| && (ops[j].Prune? || ops[j].now >= t)
    requires rs[j] == Step(s, h, ops[j]).1
    requires Explains(s[h(k)], k, ops, Outstanding(ops, rs, k, j), t)
    ensures var t' := if ops[j].now > t then ops[j].now else t;
            Explains(Step(s, h, ops[j]).0[h(k)], k, ops, Outstanding(ops, rs, k, j + 1), t')
  {
    var op, o := ops[j], Outstanding(ops, rs, k, j);
    var t' := if op.now > t then op.now else t;
    LaterExplains(s[h(k)], k, ops, o, t, t');
    match op
    case Insert(state, _, _, _, _) =>
      if h(state) == h(k) {
        InsertExplains(s[h(k)], k, ops, rs, j, t);
      }
    case Take(state, _) =>
      if h(state) == h(k) {
        TakeExplains(s[h(k)], k, ops, rs, j, t);
      }
    case Contains(_, _) =>
    case Prune(i, now) =>
      RetainExplains(s[h(k)], now, k, ops, o, t, t');
  }

  lemma AdmitValid(m: map<string, Record>, h: Hash, i: nat, k: string, r: Record, now: nat)
    requires PlacedIn(m, h, i) && |m| <= SHARD_ADMISSION_CAPACITY && h(k) == i
    ensures var m' := Admit(m, k, r, now).0; PlacedIn(m', h, i) && |m'| <= SHARD_ADMISSION_CAPACITY
  {
    InsertSize(m, k, r);
    InsertSize(Retain(m, Current(now)), k, r);
  }

  lemma StepValid(s: Store, h: Hash, op: Op)
    requires Valid(s, h)
    ensures Valid(Step(s, h, op).0, h)
  {
    match op
    case Insert(k, entry, ttl, created, now) =>
      AdmitValid(s[h(k)], h, h(k), k, NewRecord(entry, ttl, created), now);
    case Take(k, _) =>
      assert PlacedIn(s[h(k)], h, h(k));
      MapSize(s[h(k)] - {k}, s[h(k)]);
    case Contains(_, _) =>
    case Prune(i, _) =>
      assert PlacedIn(s[i], h, i);
  }

  lemma StepTracks(s: Store, h: Hash, ops: seq<Op>, rs: seq<Reply>, j: nat, t: nat)
    requires |s| == NUM_SHARDS && j < |ops| == |rs| && (ops[j].Prune? || ops[j].now >= t)
    requires rs[j] == Step(s, h, ops[j]).1 && Tracks(s, h, ops, rs, j, t)
    ensures Tracks(Step(s, h, ops[j]).0, h, ops, rs, j + 1, if ops[j].now > t then ops[j].now else t)
  {
    forall k
      ensures Explains(Step(s, h, ops[j]).0[h(k)], k, ops, Outstanding(ops, rs, k, j + 1),
                       if ops[j].now > t then ops[j].now else t)
    {
      StepExplains(s, h, k, ops, rs, j, t);
    }
  }

  lemma {:induction false} RunValid(tr: Trace, h: Hash, j: nat)
    requires IsRun(tr, h) && j <= |tr.ops|
    ensures Valid(tr.stores[j], h)
  {
    if j > 0 {
      RunValid(tr, h, j - 1);
      assert StepAt(tr, h, j - 1);
      StepValid(tr.stores[j - 1], h, tr.ops[j - 1]);
    }
  }

  lemma {:induction false} RunTracks(tr: Trace, h: Hash, j: nat)
    requires IsRun(tr, h) && Timely(tr.ops, 0, 0) && j <= |tr.ops|
    ensures |tr.stores[j]| == NUM_SHARDS
    ensures Tracks(tr.stores[j], h, tr.ops, tr.replies, j, Latest(tr.ops, j))
  {
    if j > 0 {
      RunTracks(tr, h, j - 1);
      if !tr.ops[j - 1].Prune? {
        TimelyAt(tr.ops, 0, j - 1);
      }
      assert StepAt(tr, h, j - 1);
      StepTracks(tr.stores[j - 1], h, tr.ops, tr.replies, j - 1, Latest(tr.ops, j - 1));
    }
  }

  // ---------------------------------------------------------------------------------------------
  // Main results
  // ---------------------------------------------------------------------------------------------

  /** The token has an outstanding insert whose record is current at `now`. */
  predicate Takeable(tr: Trace, k: string, j: nat, now: nat)
    requires j <= |tr.ops| == |tr.replies|
  {
    var o := Outstanding(tr.ops, tr.replies, k, j);
    o.Some? && !IsExpired(RecordOf(tr.ops[o.value]), now)
  }

  lemma {:induction false} ShardAnswers(tr: Trace, h: Hash, j: nat, k: string)
    requires IsRun(tr, h) && Timely(tr.ops, 0, 0) && j < |tr.ops| && !tr.ops[j].Prune?
    ensures |tr.stores[j]| == NUM_SHARDS
    ensures Explains(tr.stores[j][h(k)], k, tr.ops, Outstanding(tr.ops, tr.replies, k, j), tr.ops[j].now)
  {
    RunTracks(tr, h, j);
    TimelyAt(tr.ops, 0, j);
    LaterExplains(tr.stores[j][h(k)], k, tr.ops, Outstanding(tr.ops, tr.replies, k, j), Latest(tr.ops, j), tr.ops[j].now);
  }

  /**
   In every interleaving with nondecreasing clocks, a take returns an entry exactly when its token has an
   outstanding insert that has not expired, and then it returns that insert's entry. Pruning, whole or
   partial, with fresh or stale clocks, is invisible.
   */
  lemma {:induction false} TakeExactly(tr: Trace, h: Hash, j: nat)
    requires IsRun(tr, h) && Timely(tr.ops, 0, 0) && j < |tr.ops| && tr.ops[j].Take?
    ensures var k := tr.ops[j].state;
            tr.replies[j] == Took(if Takeable(tr, k, j, tr.ops[j].now)
                                  then Some(tr.ops[Outstanding(tr.ops, tr.replies, k, j).value].entry) else None)
  {
    ShardAnswers(tr, h, j, tr.ops[j].state);
    assert StepAt(tr, h, j);
  }

  /** `contains_state_sync` foretells what a take at that moment would do. */
  lemma ContainsExactly(tr: Trace, h: Hash, j: nat)
    requires IsRun(tr, h) && Timely(tr.ops, 0, 0) && j < |tr.ops| && tr.ops[j].Contains?
    ensures tr.replies[j] == Had(Takeable(tr, tr.ops[j].state, j, tr.ops[j].now))
  {
    ShardAnswers(tr, h, j, tr.ops[j].state);
    assert StepAt(tr, h, j);
  }

  /** Whatever the clocks read, a step keeps stored records those of the outstanding inserts. */
  lemma {:induction false} StepRecalls(s: Store, h: Hash, k: string, ops: seq<Op>, rs: seq<Reply>, j: nat)
    requires |s| == NUM_SHARDS && j < |ops| == |rs| && rs[j] == Step(s, h, ops[j]).1
    requires Recalls(s[h(k)], k, ops, Outstanding(ops, rs, k, j))
    ensures Recalls(Step(s, h, ops[j]).0[h(k)], k, ops, Outstanding(ops, rs, k, j + 1))
  {
  }

  ghost predicate AllRecalled(s: Store, h: Hash, ops: seq<Op>, rs: seq<Reply>, j: nat)
    requires |s| == NUM_SHARDS && j <= |ops| == |rs|
  {
    forall k :: Recalls(s[h(k)], k, ops, Outstanding(ops, rs, k, j))
  }

  lemma StepAllRecalled(s: Store, h: Hash, ops: seq<Op>, rs: seq<Reply>, j: nat)
    requires |s| == NUM_SHARDS && j < |ops| == |rs| && rs[j] == Step(s, h, ops[j]).1 && AllRecalled(s, h, ops, rs, j)
    ensures AllRecalled(Step(s, h, ops[j]).0, h, ops, rs, j + 1)
  {
    forall k ensures Recalls(Step(s, h, ops[j]).0[h(k)], k, ops, Outstanding(ops, rs, k, j + 1)) {
      StepRecalls(s, h, k, ops, rs, j);
    }
  }

  lemma {:induction false} RunRecalls(tr: Trace, h: Hash, j: nat)
    requires IsRun(tr, h) && j <= |tr.ops|
    ensures |tr.stores[j]| == NUM_SHARDS && AllRecalled(tr.stores[j], h, tr.ops, tr.replies, j)
  {
    if j > 0 {
      RunRecalls(tr, h, j - 1);
      assert StepAt(tr, h, j - 1);
      StepAllRecalled(tr.stores[j - 1], h, tr.ops, tr.replies, j - 1);
    }
  }

  /** In any run, whatever the clocks, a take that returns an entry returns that of the outstanding insert. */
  lemma {:induction false} TookOutstanding(tr: Trace, h: Hash, n: nat)
    requires IsRun(tr, h) && n < |tr.ops| && tr.ops[n].Take? && tr.replies[n] != Took(None)
    ensures var o := Outstanding(tr.ops, tr.replies, tr.ops[n].state, n);
            o.Some? && tr.replies[n] == Took(Some(tr.ops[o.value].entry))
  {
    RunRecalls(tr, h, n);
    assert StepAt(tr, h, n);
  }

  /** Between two successful takes of one token lies a successful insert of it: no insert is taken twice, whatever the clocks. */
  lemma TakesMatchDistinctInserts(tr: Trace, h: Hash, j: nat, n: nat)
    requires IsRun(tr, h) && j < n < |tr.ops|
    requires tr.ops[j].Take? && tr.ops[n].Take? && tr.ops[j].state == tr.ops[n].state
    requires tr.replies[n] != Took(None)
    ensures exists i :: && j < i < n && Stores(tr.ops[i], tr.replies[i], tr.ops[n].state)
                        && tr.replies[n] == Took(Some(tr.ops[i].entry))
                        && (forall m :: i < m < n ==> !Takes(tr.ops[m], tr.ops[n].state)
                                                      && !Stores(tr.ops[m], tr.replies[m], tr.ops[n].state))
  {
    TookOutstanding(tr, h, n);
    var k := tr.ops[n].state;
    OutstandingIsLatest(tr.ops, tr.replies, k, n);
    var i := Outstanding(tr.ops, tr.replies, k, n).value;
    assert Takes(tr.ops[j], k) && !Takes(tr.ops[i], k);
  }

  /** A prune with an old clock removes no record that a take now would still return. */
  lemma PruneKeepsTakeable(m: map<string, Record>, k: string, captured: nat, now: nat)
    requires captured <= now && Remove(m, k, now).1.Some?
    ensures Remove(Retain(m, Current(captured)), k, now).1 == Remove(m, k, now).1
  {
    if IsExpired(m[k], captured) {
      ExpiryIsFinal(m[k], captured, now);
    }
  }

  /** One shard's turn of a prune leaves exactly its current records, and every other shard as it was. */
  lemma PruneExactly(s: Store, h: Hash, i: ShardId, now: nat, j: ShardId, k: string)
    requires |s| == NUM_SHARDS
    ensures var s' := Step(s, h, Prune(i, now)).0;
            && (k in s'[j] <==> k in s[j] && (i == j ==> !IsExpired(s[j][k], now)))
            && (k in s'[j] ==> s'[j][k] == s[j][k])
  {
  }

  /** A record lasts as long as asked for, or one year where that is past the clock's range. */
  lemma RecordLasts(entry: Entry, ttl: nat, created: nat, now: nat)
    ensures var life := if created + ttl <= 0x7FFF_FFFF_FFFF_FFFF then ttl else 31536000;
            !IsExpired(NewRecord(entry, ttl, created), now) <==> now < created + life && life > 0
  {
  }

  /** Shards stay within capacity, and an insert is refused exactly when its shard holds 1024 unexpired records. */
  lemma RefusedExactlyWhenFull(tr: Trace, h: Hash, j: nat)
    requires IsRun(tr, h) && j < |tr.ops| && tr.ops[j].Insert?
    ensures var s := tr.stores[j];
            && Bounded(s, 1024) && |s| == 64
            && (tr.replies[j] == Inserted(false) <==>
                |Retain(s[h(tr.ops[j].state)], Current(tr.ops[j].now))| == 1024)
  {
    RunValid(tr, h, j);
    assert StepAt(tr, h, j);
  }

  // ---------------------------------------------------------------------------------------------
  // The object
  // ---------------------------------------------------------------------------------------------

  lemma PruneOne(s: Store, h: Hash, i: ShardId, now: nat)
    requires Valid(s, h)
    ensures var q := Retain(s[i], Current(now));
            && Valid(s[i := q], h) && |q| <= |s[i]|
            && TotalFrom(s[i := q], 0) == TotalFrom(s, 0) - |s[i]| + |q|
  {
    StepValid(s, h, Prune(i, now));
    ReplaceShard(s, 0, i, Retain(s[i], Current(now)));
  }

  class OAuthStateStore {
    const hash: Hash
    var shards: Store

    ghost predicate Ok()
      reads this
    {
      Valid(shards, hash)
    }

    constructor (h: Hash)
      ensures hash == h && shards == EmptyShards() && Ok()
    {
      hash := h;
      shards := EmptyShards();
    }

    /** Insert or replace; a full shard first drops its expired records and then fails closed. */
    method InsertStateSync(state: string, entry: Entry, ttl: nat, created: nat, now: nat) returns (ok: bool)
      requires Ok()
      modifies this
      ensures Ok()
      ensures (shards, Inserted(ok)) == Step(old(shards), hash, Insert(state, entry, ttl, created, now))
    {
      StepValid(shards, hash, Insert(state, entry, ttl, created, now));
      var idx := hash(state);
      var record := NewRecord(entry, ttl, created);
      if |shards[idx]| >= SHARD_ADMISSION_CAPACITY {
        shards := shards[idx := Retain(shards[idx], Current(now))];
        if |shards[idx]| >= SHARD_ADMISSION_CAPACITY {
          return false;
        }
      }
      shards := shards[idx := shards[idx][state := record]];
      assert shards == old(shards)[idx := shards[idx]];
      return true;
    }

    /** Remove the record on first read; hand it out only if it has not expired. */
    method TakeStateSync(state: string, now: nat) returns (r: Option<Entry>)
      requires Ok()
      modifies this
      ensures Ok()
      ensures (shards, Took(r)) == Step(old(shards), hash, Take(state, now))
    {
      StepValid(shards, hash, Take(state, now));
      var idx := hash(state);
      if state in shards[idx] {
        var record := shards[idx][state];
        shards := shards[idx := shards[idx] - {state}];
        if !IsExpired(record, now) {
          return Some(record.entry);
        }
        return None;
      }
      assert shards[idx := shards[idx]] == shards;
      return None;
    }

    method ContainsStateSync(state: string, now: nat) returns (present: bool)
      requires Ok()
      ensures (shards, Had(present)) == Step(shards, hash, Contains(state, now))
    {
      var shard := shards[hash(state)];
      if state in shard {
        return !IsExpired(shard[state], now);
      }
      return false;
    }

    /** Prune the shards one after the other; the count is exactly the number of records gone. */
    method PruneExpiredSync(now: nat) returns (pruned: nat)
      requires Ok()
      modifies this
      ensures Ok()
      ensures forall i :: 0 <= i < NUM_SHARDS ==> shards[i] == Retain(old(shards[i]), Current(now))
      ensures pruned + TotalFrom(shards, 0) == old(TotalFrom(shards, 0))
    {
      pruned := 0;
      ghost var before := shards;
      for i := 0 to NUM_SHARDS
        invariant Ok()
        invariant forall j :: 0 <= j < i ==> shards[j] == Retain(before[j], Current(now))
        invariant forall j :: i <= j < NUM_SHARDS ==> shards[j] == before[j]
        invariant pruned + TotalFrom(shards, 0) == TotalFrom(before, 0)
      {
        var initial := |shards[i]|;
        PruneOne(shards, hash, i, now);
        shards := shards[i := Retain(shards[i], Current(now))];
        pruned := pruned + SatSub(initial, |shards[i]|);
      }
    }

    method TotalEntries() returns (sum: nat)
      requires Ok()
      ensures sum == TotalFrom(shards, 0)
    {
      sum := 0;
      for i := 0 to NUM_SHARDS
        invariant sum + TotalFrom(shards, i) == TotalFrom(shards, 0)
      {
        sum := sum + |shards[i]|;
      }
    }
  }
}
