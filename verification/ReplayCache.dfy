/**
 The DPoP replay cache: 64 shards, amortised pruning, hard capacity (`DPoPReplayCache`).
 */
module ReplayCache {
  import opened Text
  import opened Clock
  import opened Shards

  const REPLAY_PRUNE_HINT_INTERVAL: nat := 64
  const REPLAY_PRUNE_THRESHOLD: nat := 512
  const REPLAY_SHARD_CAPACITY: nat := 2048
  const U64_SPAN: nat := 0x1_0000_0000_0000_0000

  /** Expiry per composite key, and per shard the admission counter that paces pruning. */
  datatype Cache = Cache(shards: Shards<nat>, hints: seq<nat>)

  datatype Answer = Recorded | ReplayDetected | Saturated

  function Key(jkt: string, jti: string): string { jkt + ":" + jti }

  /** Distinct (thumbprint, jti) pairs never share a key, as long as thumbprints hold no colon. */
  lemma KeyInjective(jkt: string, jti: string, jkt': string, jti': string)
    requires ':' !in jkt && ':' !in jkt'
    requires Key(jkt, jti) == Key(jkt', jti')
    ensures jkt == jkt' && jti == jti'
  {
    FindPrefix(jkt, ':', jti);
    FindPrefix(jkt', ':', jti');
    var k := Key(jkt, jti);
    assert jkt == k[..|jkt|] && jkt' == k[..|jkt'|];
    assert jti == k[|jkt| + 1..] && jti' == k[|jkt'| + 1..];
  }

  /** The entries of a shard that still count at `now`. */
  function Live(m: map<string, nat>, now: nat): map<string, nat> { Retain(m, Unexpired(now)) }

  predicate Consumed(m: map<string, nat>, key: string, now: nat) { key in m && m[key] > now }

  /** The shard an admission sees after the paced prune. */
  function Paced(m: map<string, nat>, hint: nat, now: nat): map<string, nat> {
    if |m| > REPLAY_PRUNE_THRESHOLD && hint % REPLAY_PRUNE_HINT_INTERVAL == 0 then Live(m, now) else m
  }

  /** One shard's part of `check_and_record`. */
  function Admit(m: map<string, nat>, hint: nat, key: string, exp: nat, now: nat): (map<string, nat>, Answer) {
    if Consumed(m, key, now) then (m, ReplayDetected)
    else
      var p := Paced(m, hint, now);
      if |p| < REPLAY_SHARD_CAPACITY then (p[key := exp], Recorded)
      else
        var q := Live(p, now);
        if |q| < REPLAY_SHARD_CAPACITY then (q[key := exp], Recorded) else (q, Saturated)
  }

  function AfterCheck(c: Cache, h: Hash, key: string, exp: nat, now: nat): (Cache, Answer)
    requires |c.shards| == |c.hints| == NUM_SHARDS
  {
    var i := h(key);
    var (m, r) := Admit(c.shards[i], c.hints[i], key, exp, now);
    var hints := if r.ReplayDetected? then c.hints else c.hints[i := (c.hints[i] + 1) % U64_SPAN];
    (Cache(c.shards[i := m], hints), r)
  }

  predicate HasConsumed(c: Cache, h: Hash, key: string, now: nat)
    requires |c.shards| == NUM_SHARDS
  {
    Consumed(c.shards[h(key)], key, now)
  }

  function PruneShard(c: Cache, i: nat, now: nat): Cache
    requires i < |c.shards|
  {
    c.(shards := c.shards[i := Live(c.shards[i], now)])
  }

  function Empty(): Cache { Cache(EmptyShards(), seq(NUM_SHARDS, _ => 0)) }

  ghost predicate Valid(c: Cache, h: Hash) {
    Placed(c.shards, h) && |c.hints| == NUM_SHARDS && Bounded(c.shards, REPLAY_SHARD_CAPACITY)
  }

  // ---------------------------------------------------------------------------------------------
  // One admission
  // ---------------------------------------------------------------------------------------------

  /** Leaving `key` aside, `m'` drops from `m` only entries already expired at `now`. */
  ghost predicate DropsOnlyExpired(m: map<string, nat>, m': map<string, nat>, now: nat, key: string) {
    && (forall k :: k in m' && k != key ==> k in m && m'[k] == m[k])
    && (forall k :: k in m && k != key && m[k] > now ==> k in m')
  }

  /**
   What one admission may do, whenever it prunes: a consumed key is refused and nothing changes; otherwise
   only expired entries go, and the key is recorded unless the shard is full of live ones.
   */
  ghost predicate Admission(m: map<string, nat>, key: string, exp: nat, now: nat, m': map<string, nat>, r: Answer) {
    && (r.ReplayDetected? <==> Consumed(m, key, now))
    && (r.Saturated? <==> !Consumed(m, key, now) && |Live(m, now)| == 2048)
    && |m'| <= 2048
    && (r.ReplayDetected? ==> m' == m)
    && (r.Saturated? ==> DropsOnlyExpired(m, m', now, key) && key !in m')
    && (r.Recorded? ==> DropsOnlyExpired(m, m', now, key) && key in m' && m'[key] == exp)
  }

  lemma AdmitMeaning(m: map<string, nat>, hint: nat, key: string, exp: nat, now: nat)
    requires |m| <= REPLAY_SHARD_CAPACITY
    ensures var (m', r) := Admit(m, hint, key, exp, now); Admission(m, key, exp, now, m', r)
  {
    if !Consumed(m, key, now) {
      var p := Paced(m, hint, now);
      var q := Live(p, now);
      assert q == Live(m, now);
      MapSize(q, p);
      InsertSize(p, key, exp);
      InsertSize(q, key, exp);
    }
  }

  /**
   When an admission prunes: at every 64th of a shard of more than 512 entries, and at any of a full one. It
   then keeps exactly the live entries, and otherwise all of them.
   */
  lemma PacedExactly(m: map<string, nat>, hint: nat, key: string, exp: nat, now: nat)
    requires |m| <= REPLAY_SHARD_CAPACITY && Admit(m, hint, key, exp, now).1.Recorded?
    ensures Admit(m, hint, key, exp, now).0
            == (if (|m| > 512 && hint % 64 == 0) || |m| >= 2048 then Live(m, now) else m)[key := exp]
  {
    assert Live(Live(m, now), now) == Live(m, now);
  }

  /** Every admission that is no replay counts for the pace of its shard, and of no other. */
  lemma PaceCounts(c: Cache, h: Hash, key: string, exp: nat, now: nat, i: ShardId)
    requires |c.shards| == |c.hints| == NUM_SHARDS
    ensures var (c', r) := AfterCheck(c, h, key, exp, now);
            |c'.hints| == NUM_SHARDS
            && c'.hints[i] == if i == h(key) && !r.ReplayDetected? then (c.hints[i] + 1) % 0x1_0000_0000_0000_0000 else c.hints[i]
  {
  }

  /** An entry live at `now` survives an admission at `now`. */
  lemma LiveEntryStays(m: map<string, nat>, hint: nat, key: string, exp: nat, now: nat, k: string)
    requires |m| <= REPLAY_SHARD_CAPACITY && k in m && m[k] > now
    ensures var (m', r) := Admit(m, hint, key, exp, now); k in m' && m'[k] == m[k]
  {
    AdmitMeaning(m, hint, key, exp, now);
  }

  lemma EmptyValid(h: Hash)
    ensures Valid(Empty(), h)
  {
  }

  lemma PruneShardValid(c: Cache, h: Hash, i: ShardId, now: nat)
    requires Valid(c, h)
    ensures Valid(PruneShard(c, i, now), h)
  {
    assert PlacedIn(c.shards[i], h, i);
  }

  lemma AfterCheckValid(c: Cache, h: Hash, key: string, exp: nat, now: nat)
    requires Valid(c, h)
    ensures Valid(AfterCheck(c, h, key, exp, now).0, h)
  {
    var i := h(key);
    AdmitMeaning(c.shards[i], c.hints[i], key, exp, now);
    assert PlacedIn(c.shards[i], h, i);
  }

  lemma AfterCheckKeeps(c: Cache, h: Hash, key: string, exp: nat, now: nat, k: string)
    requires Valid(c, h) && k in c.shards[h(k)] && c.shards[h(k)][k] > now
    ensures var m := AfterCheck(c, h, key, exp, now).0.shards[h(k)];
            k in m && m[k] == c.shards[h(k)][k]
  {
    var i := h(key);
    if i == h(k) {
      LiveEntryStays(c.shards[i], c.hints[i], key, exp, now, k);
    }
  }

  lemma AfterCheckRecords(c: Cache, h: Hash, key: string, exp: nat, now: nat)
    requires Valid(c, h) && AfterCheck(c, h, key, exp, now).1.Recorded?
    ensures var m := AfterCheck(c, h, key, exp, now).0.shards[h(key)]; key in m && m[key] == exp
  {
    AdmitMeaning(c.shards[h(key)], c.hints[h(key)], key, exp, now);
  }

  // ---------------------------------------------------------------------------------------------
  // Runs, against one unpruned unsharded map
  // ---------------------------------------------------------------------------------------------

  /** `Prune` is one shard's turn of `prune_expired`, with the clock captured when the pass began. */
  datatype Op =
    | Check(jkt: string, jti: string, exp: nat, now: nat)
    | Query(jkt: string, jti: string, now: nat)
    | Prune(shard: ShardId, now: nat)

  datatype Reply = Checked(answer: Answer) | Queried(consumed: bool) | Pruned

  function Step(c: Cache, h: Hash, op: Op): (Cache, Reply)
    requires |c.shards| == |c.hints| == NUM_SHARDS
  {
    match op
    case Check(jkt, jti, exp, now) =>
      var (c', r) := AfterCheck(c, h, Key(jkt, jti), exp, now);
      (c', Checked(r))
    case Query(jkt, jti, now) => (c, Queried(HasConsumed(c, h, Key(jkt, jti), now)))
    case Prune(i, now) => (PruneShard(c, i, now), Pruned)
  }

  /** The reference: a single map that never forgets and is never full. */
  type Ledger = map<string, nat>

  function LedgerStep(a: Ledger, op: Op): (Ledger, Reply) {
    match op
    case Check(jkt, jti, exp, now) =>
      if Consumed(a, Key(jkt, jti), now) then (a, Checked(ReplayDetected))
      else (a[Key(jkt, jti) := exp], Checked(Recorded))
    case Query(jkt, jti, now) => (a, Queried(Consumed(a, Key(jkt, jti), now)))
    case Prune(_, _) => (a, Pruned)
  }

  /** The clock after an operation: readings never go back, a prune may carry an old one. */
  function Tick(t: nat, op: Op): nat { if op.now > t then op.now else t }

  /** Every check and query reads a clock at or after everything that came before it. */
  predicate Timely(ops: seq<Op>, t: nat)
    decreases |ops|
  {
    ops != [] ==> (ops[0].Prune? || ops[0].now >= t) && Timely(ops[1..], Tick(t, ops[0]))
  }

  /** The shard of `op` is full of live entries. */
  ghost predicate FullOfLive(c: Cache, h: Hash, op: Op)
    requires |c.shards| == NUM_SHARDS
  {
    op.Check? && |Live(c.shards[h(Key(op.jkt, op.jti))], op.now)| == REPLAY_SHARD_CAPACITY
  }

  /** The ledger after an operation the cache answered with `r`. */
  function Follow(a: Ledger, op: Op, r: Reply): Ledger {
    if r == Checked(Saturated) then a else LedgerStep(a, op).0
  }

  /**
   The cache's reply `r` is the ledger's, except that it is `Saturated` exactly where the ledger would record
   and the shard is full of live entries.
   */
  ghost predicate AnswersLike(c: Cache, h: Hash, a: Ledger, op: Op, r: Reply)
    requires |c.shards| == NUM_SHARDS
  {
    var q := LedgerStep(a, op).1;
    && (r == Checked(Saturated) <==> q == Checked(Recorded) && FullOfLive(c, h, op))
    && (r != Checked(Saturated) ==> r == q)
  }

  /**
   Cache and ledger give the same reply to every operation, saturation apart; an admission refused for it is
   then skipped by the ledger too. No shard ever exceeds its capacity.
   */
  ghost predicate AnswersAs(c: Cache, h: Hash, a: Ledger, ops: seq<Op>)
    decreases |ops|
  {
    && Valid(c, h)
    && (ops != [] ==>
          && var (c', r) := Step(c, h, ops[0]);
             && AnswersLike(c, h, a, ops[0], r)
             && AnswersAs(c', h, Follow(a, ops[0], r), ops[1..]))
  }

  /** Shard `i` holds nothing the ledger does not, and everything of its part of it that is live at `t`. */
  ghost predicate ShardAgrees(m: map<string, nat>, i: nat, h: Hash, a: Ledger, t: nat) {
    && (forall k :: k in m ==> k in a && a[k] == m[k])
    && (forall k :: k in a && a[k] > t && h(k) == i ==> k in m)
  }

  ghost predicate Agrees(c: Cache, h: Hash, a: Ledger, t: nat) {
    Valid(c, h) && (forall i :: 0 <= i < NUM_SHARDS ==> ShardAgrees(c.shards[i], i, h, a, t))
  }

  /** A change confined to shard `i` and to one key of it keeps all the others in agreement. */
  lemma OneShardAgrees(c: Cache, c': Cache, h: Hash, a: Ledger, a': Ledger, t: nat, t': nat, i: nat)
    requires Agrees(c, h, a, t) && t <= t' && i < NUM_SHARDS
    requires |c'.hints| == |c'.shards| == NUM_SHARDS && c'.shards == c.shards[i := c'.shards[i]]
    requires PlacedIn(c'.shards[i], h, i) && |c'.shards[i]| <= REPLAY_SHARD_CAPACITY
    requires ShardAgrees(c'.shards[i], i, h, a', t')
    requires forall k :: h(k) != i ==> (k in a <==> k in a') && (k in a ==> a[k] == a'[k])
    ensures Agrees(c', h, a', t')
  {
    forall j | 0 <= j < NUM_SHARDS
      ensures ShardAgrees(c'.shards[j], j, h, a', t')
    {
      if j != i {
        assert c'.shards[j] == c.shards[j] && ShardAgrees(c.shards[j], j, h, a, t) && PlacedIn(c.shards[j], h, j);
      }
    }
  }

  lemma AdmissionConsumes(m: map<string, nat>, i: nat, h: Hash, a: Ledger, t: nat, key: string, now: nat)
    requires ShardAgrees(m, i, h, a, t) && h(key) == i && now >= t
    ensures Consumed(m, key, now) <==> Consumed(a, key, now)
  {
  }

  lemma AdmissionPlaces(m: map<string, nat>, i: nat, h: Hash, key: string, exp: nat, now: nat, m': map<string, nat>, r: Answer)
    requires PlacedIn(m, h, i) && h(key) == i && Admission(m, key, exp, now, m', r)
    ensures PlacedIn(m', h, i)
  {
  }

  lemma RecordedAgrees(m: map<string, nat>, i: nat, h: Hash, a: Ledger, t: nat,
                       key: string, exp: nat, now: nat, m': map<string, nat>)
    requires ShardAgrees(m, i, h, a, t) && h(key) == i && now >= t
    requires DropsOnlyExpired(m, m', now, key) && key in m' && m'[key] == exp
    ensures ShardAgrees(m', i, h, a[key := exp], now)
  {
  }

  lemma SaturatedAgrees(m: map<string, nat>, i: nat, h: Hash, a: Ledger, t: nat, key: string, now: nat, m': map<string, nat>)
    requires ShardAgrees(m, i, h, a, t) && h(key) == i && now >= t
    requires DropsOnlyExpired(m, m', now, key) && key !in m' && !Consumed(m, key, now)
    ensures ShardAgrees(m', i, h, a, now)
  {
  }

  /** One shard's admission against the ledger's. */
  lemma AdmissionAgrees(m: map<string, nat>, i: nat, h: Hash, a: Ledger, t: nat,
                        key: string, exp: nat, now: nat, m': map<string, nat>, r: Answer)
    requires ShardAgrees(m, i, h, a, t) && PlacedIn(m, h, i) && h(key) == i && now >= t
    requires Admission(m, key, exp, now, m', r)
    ensures Consumed(m, key, now) <==> Consumed(a, key, now)
    ensures PlacedIn(m', h, i)
    ensures ShardAgrees(m', i, h, if r.Recorded? then a[key := exp] else a, now)
  {
    AdmissionConsumes(m, i, h, a, t, key, now);
    AdmissionPlaces(m, i, h, key, exp, now, m', r);
    match r
    case Recorded => RecordedAgrees(m, i, h, a, t, key, exp, now, m');
    case Saturated => SaturatedAgrees(m, i, h, a, t, key, now, m');
    case ReplayDetected =>
  }

  lemma CheckAgrees(c: Cache, h: Hash, a: Ledger, t: nat, op: Op)
    requires Agrees(c, h, a, t) && op.Check? && op.now >= t
    ensures var (c', r) := Step(c, h, op);
            AnswersLike(c, h, a, op, r) && Agrees(c', h, Follow(a, op, r), op.now)
  {
    var key := Key(op.jkt, op.jti);
    var i := h(key);
    AdmitMeaning(c.shards[i], c.hints[i], key, op.exp, op.now);
    var (c', r) := Step(c, h, op);
    AdmissionAgrees(c.shards[i], i, h, a, t, key, op.exp, op.now, c'.shards[i], r.answer);
    var a' := if r == Checked(Recorded) then a[key := op.exp] else a;
    OneShardAgrees(c, c', h, a, a', t, op.now, i);
  }

  lemma PruneAgrees(c: Cache, h: Hash, a: Ledger, t: nat, op: Op)
    requires Agrees(c, h, a, t) && op.Prune?
    ensures Agrees(Step(c, h, op).0, h, a, Tick(t, op))
  {
    assert ShardAgrees(c.shards[op.shard], op.shard, h, a, t) && PlacedIn(c.shards[op.shard], h, op.shard);
    OneShardAgrees(c, Step(c, h, op).0, h, a, a, t, Tick(t, op), op.shard);
  }

  lemma QueryAgrees(c: Cache, h: Hash, a: Ledger, t: nat, op: Op)
    requires Agrees(c, h, a, t) && op.Query? && op.now >= t
    ensures AnswersLike(c, h, a, op, Step(c, h, op).1) && Agrees(Step(c, h, op).0, h, a, op.now)
  {
    var i := h(Key(op.jkt, op.jti));
    assert ShardAgrees(c.shards[i], i, h, a, t);
  }

  lemma StepAgrees(c: Cache, h: Hash, a: Ledger, t: nat, op: Op)
    requires Agrees(c, h, a, t) && (op.Prune? || op.now >= t)
    ensures var (c', r) := Step(c, h, op);
            AnswersLike(c, h, a, op, r) && Agrees(c', h, Follow(a, op, r), Tick(t, op))
  {
    match op
    case Check(_, _, _, _) => CheckAgrees(c, h, a, t, op);
    case Query(_, _, _) => QueryAgrees(c, h, a, t, op);
    case Prune(_, _) => PruneAgrees(c, h, a, t, op);
  }

  lemma {:induction false} RunAgrees(c: Cache, h: Hash, a: Ledger, t: nat, ops: seq<Op>)
    requires Agrees(c, h, a, t) && Timely(ops, t)
    ensures AnswersAs(c, h, a, ops)
    decreases |ops|
  {
    if ops != [] {
      var op := ops[0];
      StepAgrees(c, h, a, t, op);
      var (c', r) := Step(c, h, op);
      RunAgrees(c', h, Follow(a, op, r), Tick(t, op), ops[1..]);
    }
  }

  /** The sharded, lazily pruned cache behaves as the ledger over every run with nondecreasing clocks. */
  lemma {:induction false} CacheRefinesLedger(h: Hash, ops: seq<Op>)
    requires Timely(ops, 0)
    ensures AnswersAs(Empty(), h, map[], ops)
  {
    RunAgrees(Empty(), h, map[], 0, ops);
  }

  // ---------------------------------------------------------------------------------------------
  // The object
  // ---------------------------------------------------------------------------------------------

  class DPoPReplayCache {
    const hash: Hash
    var shards: Shards<nat>
    var hints: seq<nat>

    ghost function State(): Cache
      reads this
    {
      Cache(shards, hints)
    }

    ghost predicate Ok()
      reads this
    {
      Valid(State(), hash)
    }

    constructor (h: Hash)
      ensures hash == h && State() == Empty() && Ok()
    {
      hash := h;
      shards := EmptyShards();
      hints := seq(NUM_SHARDS, _ => 0);
    }

    /** Refuse a consumed pair, otherwise record it until `expiresAt`; fail closed when full. */
    method CheckAndRecord(jkt: string, jti: string, expiresAt: nat, now: nat) returns (r: Answer)
      requires Ok()
      modifies this
      ensures Ok()
      ensures (State(), r) == AfterCheck(old(State()), hash, Key(jkt, jti), expiresAt, now)
    {
      var key := Key(jkt, jti);
      var idx := hash(key);
      var guard: map<string, nat> := shards[idx];
      ghost var before := State();
      AfterCheckValid(before, hash, key, expiresAt, now);

      if key in guard && guard[key] > now {
        assert shards[idx := guard] == shards;
        return ReplayDetected;
      }

      var admissions := hints[idx];
      hints := hints[idx := (admissions + 1) % U64_SPAN];
      if |guard| > REPLAY_PRUNE_THRESHOLD && admissions % REPLAY_PRUNE_HINT_INTERVAL == 0 {
        guard := Live(guard, now);
      }

      if |guard| >= REPLAY_SHARD_CAPACITY {
        guard := Live(guard, now);
        if |guard| >= REPLAY_SHARD_CAPACITY {
          shards := shards[idx := guard];
          r := Saturated;
          assert (State(), r) == AfterCheck(before, hash, key, expiresAt, now);
          return;
        }
      }

      guard := guard[key := expiresAt];
      shards := shards[idx := guard];
      r := Recorded;
      assert (State(), r) == AfterCheck(before, hash, key, expiresAt, now);
    }

    method IsConsumed(jkt: string, jti: string, now: nat) returns (r: bool)
      requires Ok()
      ensures r == HasConsumed(State(), hash, Key(jkt, jti), now)
    {
      var key := Key(jkt, jti);
      var guard := shards[hash(key)];
      if key in guard {
        return guard[key] > now;
      }
      return false;
    }

    /** Prune every shard in turn, with no interleaving: exactly the live entries remain. */
    method PruneExpired(now: nat)
      requires Ok()
      modifies this`shards
      ensures Ok()
      ensures forall i :: 0 <= i < NUM_SHARDS ==> shards[i] == Live(old(shards[i]), now)
    {
      for i := 0 to NUM_SHARDS
        invariant Ok()
        invariant forall j :: 0 <= j < i ==> shards[j] == Live(old(shards[j]), now)
        invariant forall j :: i <= j < NUM_SHARDS ==> shards[j] == old(shards[j])
      {
        shards := shards[i := Live(shards[i], now)];
      }
    }
  }
}
