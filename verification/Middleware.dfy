/**
 Interleaved requests through `OAuthAuthService::call`: verification, nonce check, token check,
 replay commit and forwarding are separate steps, and steps of different requests mix freely.
 The nonce source and the token validator are trait objects, so their answers are arbitrary.
 */
module Middleware {
  import opened Text
  import opened Shards
  import opened ReplayCache

  type RequestId = nat

  /** What `verify_proof_deferred` hands over: the pair to record, its expiry, and the clock it read. */
  datatype Admission = Admission(jkt: string, jti: string, expiresAt: nat, now: nat)

  function KeyOf(a: Admission): string { Key(a.jkt, a.jti) }

  datatype Stage =
    | Proved(admission: Admission)
    | NoncePassed(admission: Admission)
    | TokenPassed(admission: Admission)
    | Committed(admission: Admission)
    | Forwarded(admission: Admission)
    | Answered

  /** `recorded` collects what each successful commit recorded, `reached` the requests the inner service saw. */
  datatype State = State(
    cache: Cache,
    stages: map<RequestId, Stage>,
    recorded: map<RequestId, Admission>,
    reached: set<RequestId>)

  datatype Event =
    | Verify(request: RequestId, outcome: Option<Admission>)
    | CheckNonce(request: RequestId, ok: bool)
    | CheckToken(request: RequestId, ok: bool)
    | Commit(request: RequestId)
    | Forward(request: RequestId)
    | Finish(request: RequestId)
    | PruneReplay(shard: ShardId, now: nat)

  function Init(): State { State(Empty(), map[], map[], {}) }

  predicate Enabled(s: State, e: Event) {
    match e
    case Verify(r, _) => r !in s.stages
    case CheckNonce(r, _) => r in s.stages && s.stages[r].Proved?
    case CheckToken(r, _) => r in s.stages && s.stages[r].NoncePassed?
    case Commit(r) => r in s.stages && s.stages[r].TokenPassed?
    case Forward(r) => r in s.stages && s.stages[r].Committed?
    case Finish(r) => r in s.stages && s.stages[r].Forwarded?
    case PruneReplay(_, _) => true
  }

  predicate Shaped(s: State) { |s.cache.shards| == |s.cache.hints| == NUM_SHARDS }

  /** How the replay cache answers the commit of `r`. */
  function Committing(s: State, h: Hash, r: RequestId): (Cache, Answer)
    requires Shaped(s) && Enabled(s, Commit(r))
  {
    var a := s.stages[r].admission;
    AfterCheck(s.cache, h, KeyOf(a), a.expiresAt, a.now)
  }

  function Apply(s: State, h: Hash, e: Event): (s': State)
    requires Shaped(s) && Enabled(s, e)
    ensures Shaped(s')
  {
    match e
    case Verify(r, outcome) =>
      s.(stages := s.stages[r := if outcome.Some? then Proved(outcome.value) else Answered])
    case CheckNonce(r, ok) =>
      s.(stages := s.stages[r := if ok then NoncePassed(s.stages[r].admission) else Answered])
    case CheckToken(r, ok) =>
      s.(stages := s.stages[r := if ok then TokenPassed(s.stages[r].admission) else Answered])
    case Commit(r) =>
      var (cache, answer) := Committing(s, h, r);
      if answer.Recorded? then
        State(cache, s.stages[r := Committed(s.stages[r].admission)], s.recorded[r := s.stages[r].admission], s.reached)
      else s.(cache := cache, stages := s.stages[r := Answered])
    case Forward(r) =>
      s.(stages := s.stages[r := Forwarded(s.stages[r].admission)], reached := s.reached + {r})
    case Finish(r) => s.(stages := s.stages[r := Answered])
    case PruneReplay(i, now) => s.(cache := PruneShard(s.cache, i, now))
  }

  function Exec(s: State, h: Hash, es: seq<Event>): (r: Option<State>)
    requires Shaped(s)
    ensures r.Some? ==> Shaped(r.value)
    decreases |es|
  {
    if es == [] then Some(s)
    else if Enabled(s, es[0]) then Exec(Apply(s, h, es[0]), h, es[1..])
    else None
  }

  // ---------------------------------------------------------------------------------------------
  // Forwarded exactly when committed
  // ---------------------------------------------------------------------------------------------

  /** Only recorded requests are past the commit, and a recorded one reached the service once it moved on. */
  ghost predicate ForwardInv(s: State, h: Hash) {
    && Valid(s.cache, h)
    && (forall r :: r in s.stages && (s.stages[r].Committed? || s.stages[r].Forwarded?) ==> r in s.recorded)
    && (forall r :: r in s.recorded ==> r in s.stages)
    && (forall r :: r in s.reached <==> r in s.recorded && !s.stages[r].Committed?)
    && (forall r :: r in s.recorded ==> s.stages[r].Committed? || s.stages[r].Forwarded? || s.stages[r].Answered?)
  }

  lemma StepForwardInv(s: State, h: Hash, e: Event)
    requires ForwardInv(s, h) && Enabled(s, e)
    ensures ForwardInv(Apply(s, h, e), h)
  {
    if e.Commit? {
      var a := s.stages[e.request].admission;
      AfterCheckValid(s.cache, h, KeyOf(a), a.expiresAt, a.now);
    } else if e.PruneReplay? {
      PruneShardValid(s.cache, h, e.shard, e.now);
    }
  }

  lemma {:induction false} RunForwardInv(s: State, h: Hash, es: seq<Event>)
    requires ForwardInv(s, h) && Exec(s, h, es).Some?
    ensures ForwardInv(Exec(s, h, es).value, h)
    decreases |es|
  {
    if es != [] {
      StepForwardInv(s, h, es[0]);
      RunForwardInv(Apply(s, h, es[0]), h, es[1..]);
    }
  }

  /** In every interleaving a request has reached the inner service exactly when its commit succeeded and it went on. */
  lemma {:induction false} ForwardedIffCommitted(h: Hash, es: seq<Event>, r: RequestId)
    requires Exec(Init(), h, es).Some?
    ensures var s := Exec(Init(), h, es).value;
            && (r in s.recorded ==> r in s.stages)
            && (r in s.reached <==> r in s.recorded && !s.stages[r].Committed?)
            && (r in s.stages && s.stages[r].Forwarded? ==> r in s.recorded)
  {
    EmptyValid(h);
    RunForwardInv(Init(), h, es);
  }

  // ---------------------------------------------------------------------------------------------
  // What reaches the replay cache
  // ---------------------------------------------------------------------------------------------

  /** What the run does to the replay cache: one check per commit, with the admission of its verification, and the prunes. */
  function CacheOps(s: State, h: Hash, es: seq<Event>): seq<Op>
    requires Shaped(s)
    decreases |es|
  {
    if es == [] || !Enabled(s, es[0]) then []
    else
      var rest := CacheOps(Apply(s, h, es[0]), h, es[1..]);
      match es[0]
      case Commit(r) =>
        var a := s.stages[r].admission;
        [Check(a.jkt, a.jti, a.expiresAt, a.now)] + rest
      case PruneReplay(i, now) => [Prune(i, now)] + rest
      case _ => rest
  }

  /** The cache after some operations. */
  function CacheAfter(c: Cache, h: Hash, ops: seq<Op>): (r: Cache)
    requires |c.shards| == |c.hints| == NUM_SHARDS
    ensures |r.shards| == |r.hints| == NUM_SHARDS
    decreases |ops|
  {
    if ops == [] then c else CacheAfter(ReplayCache.Step(c, h, ops[0]).0, h, ops[1..])
  }

  lemma {:induction false} CacheAfterFirst(c: Cache, h: Hash, op: Op, rest: seq<Op>)
    requires |c.shards| == |c.hints| == NUM_SHARDS
    ensures CacheAfter(c, h, [op] + rest) == CacheAfter(ReplayCache.Step(c, h, op).0, h, rest)
  {
    assert ([op] + rest)[1..] == rest;
  }

  /** In every interleaving the cache is the replay cache after exactly these operations. */
  lemma {:induction false} CacheIsReplayCache(s: State, h: Hash, es: seq<Event>)
    requires Shaped(s) && Exec(s, h, es).Some?
    ensures Exec(s, h, es).value.cache == CacheAfter(s.cache, h, CacheOps(s, h, es))
    decreases |es|
  {
    if es != [] {
      var e, s' := es[0], Apply(s, h, es[0]);
      CacheIsReplayCache(s', h, es[1..]);
      match e
      case Commit(r) =>
        var a := s.stages[r].admission;
        CacheAfterFirst(s.cache, h, Check(a.jkt, a.jti, a.expiresAt, a.now), CacheOps(s', h, es[1..]));
      case PruneReplay(i, now) => CacheAfterFirst(s.cache, h, Prune(i, now), CacheOps(s', h, es[1..]));
      case _ =>
    }
  }

  // ---------------------------------------------------------------------------------------------
  // Forwarded only after every check
  // ---------------------------------------------------------------------------------------------

  /** The steps `past` show that `r` passed verification with `a`, and the nonce and token checks as far as asked. */
  predicate Cleared(past: seq<Event>, r: RequestId, a: Admission, nonce: bool, token: bool) {
    && Verify(r, Some(a)) in past
    && (nonce ==> CheckNonce(r, true) in past)
    && (token ==> CheckToken(r, true) in past)
  }

  predicate StageCleared(past: seq<Event>, r: RequestId, stage: Stage) {
    match stage
    case Proved(a) => Cleared(past, r, a, false, false)
    case NoncePassed(a) => Cleared(past, r, a, true, false)
    case TokenPassed(a) => Cleared(past, r, a, true, true)
    case Committed(a) => Cleared(past, r, a, true, true)
    case Forwarded(a) => Cleared(past, r, a, true, true)
    case Answered => true
  }

  ghost predicate HistoryInv(past: seq<Event>, s: State) {
    && (forall r :: r in s.stages ==> StageCleared(past, r, s.stages[r]))
    && (forall r :: r in s.recorded ==> Cleared(past, r, s.recorded[r], true, true))
  }

  lemma StepHistoryInv(past: seq<Event>, s: State, h: Hash, e: Event)
    requires Shaped(s) && HistoryInv(past, s) && Enabled(s, e)
    ensures HistoryInv(past + [e], Apply(s, h, e))
  {
    assert e in past + [e] && forall x :: x in past ==> x in past + [e];
  }

  lemma {:induction false} RunHistoryInv(past: seq<Event>, s: State, h: Hash, es: seq<Event>)
    requires Shaped(s) && HistoryInv(past, s) && Exec(s, h, es).Some?
    ensures HistoryInv(past + es, Exec(s, h, es).value)
    decreases |es|
  {
    if es == [] {
      assert past + es == past;
    } else {
      StepHistoryInv(past, s, h, es[0]);
      RunHistoryInv(past + [es[0]], Apply(s, h, es[0]), h, es[1..]);
      assert past + [es[0]] + es[1..] == past + es;
    }
  }

  /** In every interleaving, a request that reached the inner service passed verification, nonce check and token check. */
  lemma {:induction false} ReachedPassedEveryCheck(h: Hash, es: seq<Event>, r: RequestId)
    requires Exec(Init(), h, es).Some? && r in Exec(Init(), h, es).value.reached
    ensures var s := Exec(Init(), h, es).value; r in s.recorded && Cleared(es, r, s.recorded[r], true, true)
  {
    ForwardedIffCommitted(h, es, r);
    RunHistoryInv([], Init(), h, es);
    assert [] + es == es;
  }

  // ---------------------------------------------------------------------------------------------
  // At most one of two requests with the same pair
  // ---------------------------------------------------------------------------------------------

  /** The clock an event brings to the replay cache, if any. */
  function CacheClock(s: State, e: Event): Option<nat>
    requires Enabled(s, e)
  {
    match e
    case Commit(r) => Some(s.stages[r].admission.now)
    case PruneReplay(_, now) => Some(now)
    case _ => None
  }

  /** No commit or prune of the run carries a clock at or past `t`. */
  predicate ClocksBefore(s: State, h: Hash, es: seq<Event>, t: nat)
    requires Shaped(s)
    decreases |es|
  {
    es != [] && Enabled(s, es[0]) ==>
      && (CacheClock(s, es[0]).Some? ==> CacheClock(s, es[0]).value < t)
      && ClocksBefore(Apply(s, h, es[0]), h, es[1..], t)
  }

  ghost predicate Holds(s: State, h: Hash, k: string, exp: nat)
    requires Shaped(s)
  {
    k in s.cache.shards[h(k)] && s.cache.shards[h(k)][k] == exp
  }

  lemma StepHolds(s: State, h: Hash, e: Event, k: string, exp: nat)
    requires Valid(s.cache, h) && Enabled(s, e) && Holds(s, h, k, exp)
    requires CacheClock(s, e).Some? ==> CacheClock(s, e).value < exp
    ensures Holds(Apply(s, h, e), h, k, exp)
  {
    if e.Commit? {
      var a := s.stages[e.request].admission;
      AfterCheckKeeps(s.cache, h, KeyOf(a), a.expiresAt, a.now, k);
    }
  }

  lemma {:induction false} RunHolds(s: State, h: Hash, es: seq<Event>, k: string, exp: nat)
    requires ForwardInv(s, h) && Holds(s, h, k, exp) && ClocksBefore(s, h, es, exp) && Exec(s, h, es).Some?
    ensures Holds(Exec(s, h, es).value, h, k, exp)
    decreases |es|
  {
    if es != [] {
      StepHolds(s, h, es[0], k, exp);
      StepForwardInv(s, h, es[0]);
      RunHolds(Apply(s, h, es[0]), h, es[1..], k, exp);
    }
  }

  /**
   After one commit of a pair is recorded, any later commit of the same pair is refused, as long as neither
   it nor any commit or prune in between carries a clock at or past the first entry's expiry. The clocks
   need not be in order: a deferred commit carries the reading of its verification.
   */
  lemma {:induction false} NoDoubleForward(h: Hash, before: seq<Event>, r: RequestId, between: seq<Event>, u: RequestId)
    requires Exec(Init(), h, before).Some?
    requires var s := Exec(Init(), h, before).value;
             && Enabled(s, Commit(r)) && Committing(s, h, r).1.Recorded?
             && var s' := Apply(s, h, Commit(r));
                && ClocksBefore(s', h, between, s.stages[r].admission.expiresAt)
                && Exec(s', h, between).Some?
                && var s'' := Exec(s', h, between).value;
                   && Enabled(s'', Commit(u)) && KeyOf(s''.stages[u].admission) == KeyOf(s.stages[r].admission)
                   && s''.stages[u].admission.now < s.stages[r].admission.expiresAt
    ensures var s := Exec(Init(), h, before).value;
            var s'' := Exec(Apply(s, h, Commit(r)), h, between).value;
            Committing(s'', h, u).1.ReplayDetected? && u !in Apply(s'', h, Commit(u)).recorded
  {
    EmptyValid(h);
    RunForwardInv(Init(), h, before);
    var s := Exec(Init(), h, before).value;
    var a := s.stages[r].admission;
    var s' := Apply(s, h, Commit(r));
    AfterCheckRecords(s.cache, h, KeyOf(a), a.expiresAt, a.now);
    StepForwardInv(s, h, Commit(r));
    RunHolds(s', h, between, KeyOf(a), a.expiresAt);
    RunForwardInv(s', h, between);
    var s'' := Exec(s', h, between).value;
    RefusesHeld(s'', h, u, a.expiresAt);
  }

  lemma RefusesHeld(s: State, h: Hash, u: RequestId, exp: nat)
    requires ForwardInv(s, h) && Enabled(s, Commit(u)) && s.stages[u].admission.now < exp
    requires Holds(s, h, KeyOf(s.stages[u].admission), exp)
    ensures Committing(s, h, u).1.ReplayDetected? && u !in Apply(s, h, Commit(u)).recorded
  {
    var a := s.stages[u].admission;
    var i := h(KeyOf(a));
    AdmitMeaning(s.cache.shards[i], s.cache.hints[i], KeyOf(a), a.expiresAt, a.now);
  }

  // ---------------------------------------------------------------------------------------------
  // Requests that never commit leave no trace
  // ---------------------------------------------------------------------------------------------

  predicate Concerns(e: Event, r: RequestId) { !e.PruneReplay? && e.request == r }

  /** The run with every step of request `r` struck out. */
  function Erase(es: seq<Event>, r: RequestId): seq<Event> {
    if es == [] then []
    else (if Concerns(es[0], r) then [] else [es[0]]) + Erase(es[1..], r)
  }

  /** Same cache, and the same standing of every request but `r`. */
  ghost predicate AlikeBut(s: State, s': State, r: RequestId) {
    && s.cache == s'.cache
    && (forall q :: q != r ==> (q in s.stages <==> q in s'.stages))
    && (forall q :: q != r && q in s.stages ==> s.stages[q] == s'.stages[q])
    && (forall q :: q != r ==> (q in s.recorded <==> q in s'.recorded) && (q in s.reached <==> q in s'.reached))
    && (forall q :: q != r && q in s.recorded ==> s.recorded[q] == s'.recorded[q])
  }

  lemma StepAlike(s: State, s': State, h: Hash, e: Event, r: RequestId)
    requires Shaped(s) && Shaped(s') && AlikeBut(s, s', r) && Enabled(s, e)
    requires !Concerns(e, r)
    ensures Enabled(s', e) && AlikeBut(Apply(s, h, e), Apply(s', h, e), r)
  {
  }

  lemma OwnStepAlike(s: State, s': State, h: Hash, e: Event, r: RequestId)
    requires Shaped(s) && AlikeBut(s, s', r) && Enabled(s, e)
    requires Concerns(e, r) && !e.Commit?
    ensures AlikeBut(Apply(s, h, e), s', r)
  {
  }

  /** A request that fails its proof, nonce or token check, and so never commits, changes nothing for anyone else. */
  lemma {:induction false} UncommittedLeavesNoTrace(s: State, s': State, h: Hash, es: seq<Event>, r: RequestId)
    requires Shaped(s) && Shaped(s') && AlikeBut(s, s', r)
    requires Exec(s, h, es).Some? && forall e :: e in es ==> e != Commit(r)
    ensures Exec(s', h, Erase(es, r)).Some?
    ensures AlikeBut(Exec(s, h, es).value, Exec(s', h, Erase(es, r)).value, r)
    decreases |es|
  {
    if es != [] {
      var e, rest := es[0], Erase(es[1..], r);
      assert e in es && (forall x :: x in es[1..] ==> x in es);
      if Concerns(e, r) {
        assert !e.Commit?;
        OwnStepAlike(s, s', h, e, r);
        UncommittedLeavesNoTrace(Apply(s, h, e), s', h, es[1..], r);
        assert Erase(es, r) == rest;
      } else {
        StepAlike(s, s', h, e, r);
        UncommittedLeavesNoTrace(Apply(s, h, e), Apply(s', h, e), h, es[1..], r);
        assert Erase(es, r) == [e] + rest;
        ExecStep(s', h, e, rest);
      }
    }
  }

  // ---------------------------------------------------------------------------------------------
  // Where it stops
  // ---------------------------------------------------------------------------------------------

  /** Two requests with the same proof, both past the token check. */
  function Prelude(a: Admission): seq<Event> {
    [Verify(0, Some(a)), CheckNonce(0, true), CheckToken(0, true),
     Verify(1, Some(a)), CheckNonce(1, true), CheckToken(1, true)]
  }

  /** After the first commit: forward, the entry lapses and is pruned, then the second commits and is forwarded. */
  function Finale(h: Hash, a: Admission): seq<Event> {
    [Forward(0), PruneReplay(h(KeyOf(a)), a.expiresAt), Commit(1), Forward(1)]
  }

  lemma {:induction false} ExecStep(s: State, h: Hash, e: Event, es: seq<Event>)
    requires Shaped(s) && Enabled(s, e)
    ensures Exec(s, h, [e] + es) == Exec(Apply(s, h, e), h, es)
  {
    assert ([e] + es)[1..] == es;
  }

  lemma {:induction false} ExecConcat(s: State, h: Hash, xs: seq<Event>, ys: seq<Event>)
    requires Shaped(s) && Exec(s, h, xs).Some?
    ensures Exec(s, h, xs + ys) == Exec(Exec(s, h, xs).value, h, ys)
    decreases |xs|
  {
    if xs == [] {
      assert xs + ys == ys;
    } else {
      assert (xs + ys)[0] == xs[0] && (xs + ys)[1..] == xs[1..] + ys;
      ExecConcat(Apply(s, h, xs[0]), h, xs[1..], ys);
    }
  }

  lemma {:induction false} OnePassesToken(s: State, h: Hash, a: Admission, r: RequestId)
    requires Shaped(s) && r !in s.stages
    ensures Exec(s, h, [Verify(r, Some(a)), CheckNonce(r, true), CheckToken(r, true)])
            == Some(s.(stages := s.stages[r := TokenPassed(a)]))
  {
    var e1, e2, e3 := Verify(r, Some(a)), CheckNonce(r, true), CheckToken(r, true);
    var s1 := Apply(s, h, e1);
    var s2 := Apply(s1, h, e2);
    ExecStep(s, h, e1, [e2, e3]);
    ExecStep(s1, h, e2, [e3]);
    ExecStep(s2, h, e3, []);
    assert [e1, e2, e3] == [e1] + [e2, e3] && [e2, e3] == [e2] + [e3] && [e3] == [e3] + [];
    assert Apply(s2, h, e3).stages == s.stages[r := TokenPassed(a)];
  }

  lemma PreludeRuns(h: Hash, a: Admission)
    ensures Exec(Init(), h, Prelude(a)) == Some(Init().(stages := map[0 := TokenPassed(a), 1 := TokenPassed(a)]))
  {
    OnePassesToken(Init(), h, a, 0);
    var mid := Init().(stages := Init().stages[0 := TokenPassed(a)]);
    OnePassesToken(mid, h, a, 1);
    var xs := [Verify(0, Some(a)), CheckNonce(0, true), CheckToken(0, true)];
    var ys := [Verify(1, Some(a)), CheckNonce(1, true), CheckToken(1, true)];
    assert Prelude(a) == xs + ys;
    ExecConcat(Init(), h, xs, ys);
    assert mid.stages[1 := TokenPassed(a)] == map[0 := TokenPassed(a), 1 := TokenPassed(a)];
  }

  /**
   The run goes on from the commit that records `a`, for a pair no request had recorded, with commits and
   prunes that carry clocks before `t`, and ends with two requests of that pair at the inner service.
   */
  ghost predicate ForwardsTwice(h: Hash, a: Admission, t: nat, before: seq<Event>, r: RequestId, after: seq<Event>, u: RequestId) {
    && Exec(Init(), h, before).Some?
    && var s := Exec(Init(), h, before).value;
       && Records(s, h, r, a) && (forall q :: q in s.recorded ==> KeyOf(s.recorded[q]) != KeyOf(a))
       && var s' := Apply(s, h, Commit(r));
          && ClocksBefore(s', h, after, t) && Exec(s', h, after).Some?
          && BothReached(Exec(s', h, after).value, r, u, KeyOf(a))
  }

  predicate Records(s: State, h: Hash, r: RequestId, a: Admission)
    requires Shaped(s)
  {
    Enabled(s, Commit(r)) && s.stages[r].admission == a && Committing(s, h, r).1.Recorded?
  }

  predicate BothReached(s: State, r: RequestId, u: RequestId, k: string) {
    && r != u && r in s.reached && u in s.reached && r in s.recorded && u in s.recorded
    && KeyOf(s.recorded[r]) == k == KeyOf(s.recorded[u])
  }

  /** Of the pair `k` nobody but `r` has recorded. */
  ghost predicate OnlyRecorded(s: State, r: RequestId, k: string) {
    forall q :: q in s.recorded && KeyOf(s.recorded[q]) == k ==> q == r
  }

  lemma StepOnlyRecorded(s: State, h: Hash, e: Event, r: RequestId, k: string, exp: nat)
    requires ForwardInv(s, h) && Enabled(s, e) && Holds(s, h, k, exp) && OnlyRecorded(s, r, k)
    requires CacheClock(s, e).Some? ==> CacheClock(s, e).value < exp
    ensures OnlyRecorded(Apply(s, h, e), r, k)
  {
    if e.Commit? && KeyOf(s.stages[e.request].admission) == k {
      RefusesHeld(s, h, e.request, exp);
    }
  }

  lemma {:induction false} RunOnlyRecorded(s: State, h: Hash, es: seq<Event>, r: RequestId, k: string, exp: nat, t: nat)
    requires ForwardInv(s, h) && Holds(s, h, k, exp) && OnlyRecorded(s, r, k) && t <= exp
    requires ClocksBefore(s, h, es, t) && Exec(s, h, es).Some?
    ensures OnlyRecorded(Exec(s, h, es).value, r, k)
    decreases |es|
  {
    if es != [] {
      StepHolds(s, h, es[0], k, exp);
      StepOnlyRecorded(s, h, es[0], r, k, exp);
      StepForwardInv(s, h, es[0]);
      RunOnlyRecorded(Apply(s, h, es[0]), h, es[1..], r, k, exp, t);
    }
  }

  /** While the clocks stay before the expiry, no second request of the pair is forwarded. */
  lemma EarlyClocksForwardOnce(h: Hash, a: Admission, t: nat, before: seq<Event>, r: RequestId, after: seq<Event>, u: RequestId)
    requires t <= a.expiresAt
    ensures !ForwardsTwice(h, a, t, before, r, after, u)
  {
    if ForwardsTwice(h, a, t, before, r, after, u) {
      var s := Exec(Init(), h, before).value;
      EmptyValid(h);
      RunForwardInv(Init(), h, before);
      AfterCheckRecords(s.cache, h, KeyOf(a), a.expiresAt, a.now);
      StepForwardInv(s, h, Commit(r));
      RunOnlyRecorded(Apply(s, h, Commit(r)), h, after, r, KeyOf(a), a.expiresAt, t);
    }
  }

  /** A commit into an empty shard is recorded. */
  lemma EmptyShardRecords(s: State, h: Hash, r: RequestId, a: Admission)
    requires Shaped(s) && Enabled(s, Commit(r)) && s.stages[r].admission == a && s.cache.shards[h(KeyOf(a))] == map[]
    ensures Records(s, h, r, a)
    ensures var s' := Apply(s, h, Commit(r));
            && s'.cache.shards[h(KeyOf(a))] == map[KeyOf(a) := a.expiresAt] && s'.reached == s.reached
            && s'.stages == s.stages[r := Committed(a)] && s'.recorded == s.recorded[r := a]
  {
  }

  /** The replay entry lapses and is pruned, then the second request commits. */
  lemma {:induction false} SecondFollows(s: State, h: Hash, a: Admission, t: nat)
    requires Shaped(s) && s.stages == map[0 := Forwarded(a), 1 := TokenPassed(a)] && s.reached == {0}
    requires s.cache.shards[h(KeyOf(a))] == map[KeyOf(a) := a.expiresAt] && s.recorded == map[0 := a]
    requires a.now < t && a.expiresAt < t
    ensures var es := [PruneReplay(h(KeyOf(a)), a.expiresAt), Commit(1), Forward(1)];
            && Exec(s, h, es).Some? && ClocksBefore(s, h, es, t) && BothReached(Exec(s, h, es).value, 0, 1, KeyOf(a))
  {
    var prune := PruneReplay(h(KeyOf(a)), a.expiresAt);
    var s1 := Apply(s, h, prune);
    assert s1.cache.shards[h(KeyOf(a))] == map[];
    EmptyShardRecords(s1, h, 1, a);
    var s2 := Apply(s1, h, Commit(1));
    var s3 := Apply(s2, h, Forward(1));
    var es := [prune, Commit(1), Forward(1)];
    assert es[1..] == [Commit(1), Forward(1)] && es[1..][1..] == [Forward(1)] && [Forward(1)][1..] == [];
    assert Exec(s3, h, []) == Some(s3) && ClocksBefore(s3, h, [], t);
    assert Exec(s2, h, [Forward(1)]) == Some(s3) && ClocksBefore(s2, h, [Forward(1)], t);
    assert Exec(s1, h, [Commit(1), Forward(1)]) == Some(s3) && ClocksBefore(s1, h, [Commit(1), Forward(1)], t);
  }

  /** Once a prune carries a clock at the expiry, a deferred commit with an older clock doubles the forward. */
  lemma LatePruneForwardsTwice(h: Hash, a: Admission, t: nat)
    requires a.now < t && a.expiresAt < t
    ensures ForwardsTwice(h, a, t, Prelude(a), 0, Finale(h, a), 1)
  {
    PreludeRuns(h, a);
    var s := Init().(stages := map[0 := TokenPassed(a), 1 := TokenPassed(a)]);
    EmptyShardRecords(s, h, 0, a);
    var s1 := Apply(s, h, Commit(0));
    var s2 := Apply(s1, h, Forward(0));
    assert s2.stages == map[0 := Forwarded(a), 1 := TokenPassed(a)];
    SecondFollows(s2, h, a, t);
    assert Finale(h, a)[1..] == [PruneReplay(h(KeyOf(a)), a.expiresAt), Commit(1), Forward(1)];
  }

  /**
   The exact condition: with the clocks of later commits and prunes kept before `t`, no run forwards two
   requests of the pair `a` recorded, if and only if `t` is no later than the expiry of `a`.
   */
  lemma ForwardedOnceExactly(h: Hash, a: Admission, t: nat)
    requires a.now < t
    ensures (forall before, r, after, u :: !ForwardsTwice(h, a, t, before, r, after, u)) <==> t <= a.expiresAt
  {
    if t <= a.expiresAt {
      forall before, r, after, u ensures !ForwardsTwice(h, a, t, before, r, after, u) {
        EarlyClocksForwardOnce(h, a, t, before, r, after, u);
      }
    } else {
      LatePruneForwardsTwice(h, a, t);
    }
  }
}
