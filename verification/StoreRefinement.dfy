/**
 The sharded state store against the abstract lifecycle model: every take succeeds in one exactly when
 it succeeds in the other.
 */
module StoreRefinement {
  import opened Text
  import opened Shards
  import opened StateStore
  import L = Lifecycle

  /** The model's side of a block: a refused insert is skipped, a shard's prune is a prune. */
  function ModelStep(m: L.Model, op: Op, r: Reply): L.Model {
    match op
    case Insert(k, entry, ttl, created, _) =>
      if r == Inserted(true) then L.Insert(m, k, entry.clientId, ttl, created).0 else m
    case Take(k, now) => L.Take(m, k, now).0
    case Contains(_, _) => m
    case Prune(_, now) => L.Prune(m, now)
  }

  /** The record keeps the TTL asked for: no overflow, or one that falls back to the same length. */
  predicate KeepsTtl(op: Op)
    requires op.Insert?
  {
    op.created + op.ttl <= INSTANT_MAX || op.ttl == YEAR
  }

  /** What the model's insert demands, and an expiry the record can hold. */
  predicate InDomain(op: Op) {
    op.Insert? ==> op.state != "" && op.ttl > 0 && KeepsTtl(op)
  }

  /** The models a run goes through, alongside its stores. */
  ghost predicate IsModelRun(tr: Trace, ms: seq<L.Model>) {
    && |tr.replies| == |tr.ops| && |ms| == |tr.ops| + 1 && ms[0] == L.Empty()
    && (forall j :: 0 <= j < |tr.ops| ==> InDomain(tr.ops[j]) && ms[j + 1] == ModelStep(ms[j], tr.ops[j], tr.replies[j]))
  }

  function StatusFor(op: Op): L.Status
    requires op.Insert?
  {
    L.Pending(op.created, op.ttl)
  }

  /** Store record and model status of one insert expire at the same moments. */
  lemma SameExpiry(op: Op, now: nat)
    requires op.Insert? && InDomain(op)
    ensures L.Lapsed(StatusFor(op), now) <==> IsExpired(RecordOf(op), now)
  {
  }

  /** What the run's history says about the model's view of a token. */
  ghost predicate ModelExplains(m: L.Model, k: string, ops: seq<Op>, o: Option<nat>, t: nat)
    requires o.Some? ==> o.value < |ops| && ops[o.value].Insert?
  {
    var st := L.StatusOf(m, k);
    && (st.Pending? ==>
          && o.Some? && st == StatusFor(ops[o.value]) && k in m.payloads
          && m.payloads[k] == L.Payload(k, ops[o.value].entry.clientId, st.created, st.ttl))
    && (o.Some? && !L.Lapsed(StatusFor(ops[o.value]), t) ==> st.Pending?)
  }

  lemma ModelLater(m: L.Model, k: string, ops: seq<Op>, o: Option<nat>, t: nat, t': nat)
    requires o.Some? ==> o.value < |ops| && ops[o.value].Insert?
    requires ModelExplains(m, k, ops, o, t) && t <= t'
    ensures ModelExplains(m, k, ops, o, t')
  {
  }

  lemma ModelStepExplains(m: L.Model, k: string, ops: seq<Op>, rs: seq<Reply>, j: nat, t: nat)
    requires j < |ops| == |rs| && InDomain(ops[j]) && (ops[j].Prune? || ops[j].now >= t)
    requires ModelExplains(m, k, ops, Outstanding(ops, rs, k, j), t)
    ensures ModelExplains(ModelStep(m, ops[j], rs[j]), k, ops, Outstanding(ops, rs, k, j + 1),
                          if ops[j].now > t then ops[j].now else t)
  {
    ModelLater(m, k, ops, Outstanding(ops, rs, k, j), t, if ops[j].now > t then ops[j].now else t);
  }

  lemma {:induction false} ModelTracks(tr: Trace, ms: seq<L.Model>, k: string, j: nat)
    requires IsModelRun(tr, ms) && Timely(tr.ops, 0, 0) && j <= |tr.ops|
    ensures ModelExplains(ms[j], k, tr.ops, Outstanding(tr.ops, tr.replies, k, j), Latest(tr.ops, j))
  {
    if j > 0 {
      ModelTracks(tr, ms, k, j - 1);
      if !tr.ops[j - 1].Prune? {
        TimelyAt(tr.ops, 0, j - 1);
      }
      ModelStepExplains(ms[j - 1], k, tr.ops, tr.replies, j - 1, Latest(tr.ops, j - 1));
    }
  }

  /** The model's take succeeds exactly for a takeable token, and gives that insert's client. */
  lemma {:induction false} ModelTakeExactly(tr: Trace, ms: seq<L.Model>, j: nat)
    requires IsModelRun(tr, ms) && Timely(tr.ops, 0, 0) && j < |tr.ops| && tr.ops[j].Take?
    ensures var k, now := tr.ops[j].state, tr.ops[j].now;
            var p := L.Take(ms[j], k, now).1;
            && (p.Some? <==> Takeable(tr, k, j, now))
            && (p.Some? ==> p.value.clientId == tr.ops[Outstanding(tr.ops, tr.replies, k, j).value].entry.clientId)
  {
    var k, now := tr.ops[j].state, tr.ops[j].now;
    var o := Outstanding(tr.ops, tr.replies, k, j);
    ModelTracks(tr, ms, k, j);
    TimelyAt(tr.ops, 0, j);
    ModelLater(ms[j], k, tr.ops, o, Latest(tr.ops, j), now);
    if o.Some? {
      SameExpiry(tr.ops[o.value], now);
    }
  }

  /**
   The store refines the lifecycle model: over every interleaved run with nondecreasing clocks, non-empty
   tokens and positive TTLs, a take succeeds in the store exactly when it succeeds in the model, for the
   same client.
   */
  lemma StoreRefinesModel(tr: Trace, h: Hash, ms: seq<L.Model>, j: nat)
    requires IsRun(tr, h) && IsModelRun(tr, ms) && Timely(tr.ops, 0, 0) && j < |tr.ops| && tr.ops[j].Take?
    ensures var p := L.Take(ms[j], tr.ops[j].state, tr.ops[j].now).1;
            && tr.replies[j].Took?
            && (tr.replies[j].entry.Some? <==> p.Some?)
            && (p.Some? ==> tr.replies[j].entry.value.clientId == p.value.clientId)
  {
    TakeExactly(tr, h, j);
    ModelTakeExactly(tr, ms, j);
  }

  /** `InDomain` is exact for the clock: record and status expire together always iff the TTL is kept. */
  lemma ExpiryAgreesExactly(op: Op)
    requires op.Insert? && op.state != "" && op.ttl > 0
    ensures (forall now: nat :: L.Lapsed(StatusFor(op), now) <==> IsExpired(RecordOf(op), now)) <==> KeepsTtl(op)
  {
    if KeepsTtl(op) {
      forall now: nat ensures L.Lapsed(StatusFor(op), now) <==> IsExpired(RecordOf(op), now) {
        SameExpiry(op, now);
      }
    } else {
      var now := op.created + if op.ttl < YEAR then op.ttl else YEAR;
      assert !(L.Lapsed(StatusFor(op), now) <==> IsExpired(RecordOf(op), now));
    }
  }
}
