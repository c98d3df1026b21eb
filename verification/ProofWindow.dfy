/**
 `DPoPVerifier::verify_proof`: the temporal window of a proof against the life of its replay entry
 (sections 4.3 and 11.1 of RFC 9449). Signature, `htm`, `htu`, nonce and `ath` checks are one boolean.
 */
module ProofWindow {
  import opened Clock
  import opened Text
  import opened Shards
  import opened ReplayCache

  /** Accepted clock skew and proof age, in seconds. */
  datatype Window = Window(skew: nat, age: nat)

  datatype Proof = Proof(jkt: string, jti: string, iat: nat, exp: Option<nat>)

  datatype Verdict = Accepted | Unsound | FutureProof | ProofTooOld | ExpiredProof | Refused(answer: Answer)

  /** The three temporal checks, in order. */
  function Temporal(w: Window, p: Proof, now: nat): Verdict {
    if p.iat > SatAdd(now, w.skew) then FutureProof
    else if SatSub(now, p.iat) > w.age then ProofTooOld
    else if p.exp.Some? && SatAdd(p.exp.value, w.skew) < now then ExpiredProof
    else Accepted
  }

  /** When the replay entry of a proof admitted at `now` lapses. */
  function Expiry(w: Window, now: nat): nat { SatAdd(SatAdd(now, w.age), w.skew) }

  /**
   One call. The source reads the clock twice: `checked` for the temporal window (or the caller's
   override), `admitted` for the replay cache. `Sweep` is one shard's turn of a prune.
   */
  datatype Call =
    | Verify(proof: Proof, sound: bool, checked: nat, admitted: nat)
    | Sweep(shard: ShardId, admitted: nat)

  predicate Shaped(c: Cache) { |c.shards| == |c.hints| == NUM_SHARDS }

  function Perform(c: Cache, h: Hash, w: Window, call: Call): (r: (Cache, Verdict))
    requires Shaped(c)
    ensures Shaped(r.0)
  {
    match call
    case Sweep(i, now) => (PruneShard(c, i, now), Unsound)
    case Verify(p, sound, checked, now) =>
      if !sound then (c, Unsound)
      else if !Temporal(w, p, checked).Accepted? then (c, Temporal(w, p, checked))
      else
        var (c', r) := AfterCheck(c, h, Key(p.jkt, p.jti), Expiry(w, now), now);
        (c', if r.Recorded? then Accepted else Refused(r))
  }

  /**
   Calls read their admission clock before they take the shard's lock, so it may have fallen up to `drift`
   behind those of calls and sweeps that got there first. A sweep may carry any old clock.
   */
  ghost predicate Ordered(calls: seq<Call>, drift: nat) {
    forall i, j :: 0 <= i < j < |calls| && calls[j].Verify? ==> calls[i].admitted <= calls[j].admitted + drift
  }

  /** The state after the first `i` calls. */
  function After(c: Cache, h: Hash, w: Window, calls: seq<Call>, i: nat): (r: Cache)
    requires Shaped(c) && i <= |calls|
    ensures Shaped(r)
  {
    if i == 0 then c else Perform(After(c, h, w, calls, i - 1), h, w, calls[i - 1]).0
  }

  /** How call `i` of the run ends. */
  function VerdictOf(c: Cache, h: Hash, w: Window, calls: seq<Call>, i: nat): Verdict
    requires Shaped(c) && i < |calls|
  {
    Perform(After(c, h, w, calls, i), h, w, calls[i]).1
  }

  // ---------------------------------------------------------------------------------------------
  // A recorded entry blocks its key until it lapses
  // ---------------------------------------------------------------------------------------------

  lemma PerformValid(c: Cache, h: Hash, w: Window, call: Call)
    requires Valid(c, h)
    ensures Valid(Perform(c, h, w, call).0, h)
  {
    if call.Verify? {
      AfterCheckValid(c, h, Key(call.proof.jkt, call.proof.jti), Expiry(w, call.admitted), call.admitted);
    } else {
      PruneShardValid(c, h, call.shard, call.admitted);
    }
  }

  lemma {:induction false} AfterValid(c: Cache, h: Hash, w: Window, calls: seq<Call>, i: nat)
    requires Valid(c, h) && i <= |calls|
    ensures Valid(After(c, h, w, calls, i), h)
  {
    if i > 0 {
      AfterValid(c, h, w, calls, i - 1);
      PerformValid(After(c, h, w, calls, i - 1), h, w, calls[i - 1]);
    }
  }

  /** The key has a replay entry that lapses at `exp`. */
  ghost predicate HasEntry(c: Cache, h: Hash, k: string, exp: nat)
    requires Shaped(c)
  {
    k in c.shards[h(k)] && c.shards[h(k)][k] == exp
  }

  lemma PerformKeeps(c: Cache, h: Hash, w: Window, call: Call, k: string, exp: nat)
    requires Valid(c, h) && HasEntry(c, h, k, exp) && call.admitted < exp
    ensures HasEntry(Perform(c, h, w, call).0, h, k, exp)
  {
    if call.Verify? {
      AfterCheckKeeps(c, h, Key(call.proof.jkt, call.proof.jti), Expiry(w, call.admitted), call.admitted, k);
    }
  }

  /** An accepted call leaves an entry that lasts until its expiry. */
  lemma AcceptedRecords(c: Cache, h: Hash, w: Window, call: Call)
    requires Valid(c, h) && call.Verify? && Perform(c, h, w, call).1.Accepted?
    ensures HasEntry(Perform(c, h, w, call).0, h, Key(call.proof.jkt, call.proof.jti), Expiry(w, call.admitted))
  {
    AfterCheckRecords(c, h, Key(call.proof.jkt, call.proof.jti), Expiry(w, call.admitted), call.admitted);
  }

  lemma EntryStaysOne(c: Cache, h: Hash, w: Window, calls: seq<Call>, n: nat, k: string, exp: nat)
    requires Valid(c, h) && 0 < n <= |calls| && HasEntry(After(c, h, w, calls, n - 1), h, k, exp)
    requires calls[n - 1].admitted < exp
    ensures HasEntry(After(c, h, w, calls, n), h, k, exp)
  {
    AfterValid(c, h, w, calls, n - 1);
    PerformKeeps(After(c, h, w, calls, n - 1), h, w, calls[n - 1], k, exp);
  }

  /** While every clock is before its expiry, an entry stays. */
  lemma {:induction false} EntryStays(c: Cache, h: Hash, w: Window, calls: seq<Call>, i: nat, j: nat, k: string, exp: nat)
    requires Valid(c, h) && i <= j <= |calls| && HasEntry(After(c, h, w, calls, i), h, k, exp)
    requires forall n :: i <= n < j ==> calls[n].admitted < exp
    ensures HasEntry(After(c, h, w, calls, j), h, k, exp)
    decreases j
  {
    if i < j {
      EntryStays(c, h, w, calls, i, j - 1, k, exp);
      EntryStaysOne(c, h, w, calls, j, k, exp);
    }
  }

  /** A call whose key has an entry not yet lapsed is not accepted. */
  lemma EntryBlocks(c: Cache, h: Hash, w: Window, call: Call, exp: nat)
    requires Valid(c, h) && call.Verify? && call.admitted < exp
    requires HasEntry(c, h, Key(call.proof.jkt, call.proof.jti), exp)
    ensures !Perform(c, h, w, call).1.Accepted?
  {
  }

  /** After an accepted call its entry is there. */
  lemma {:induction false} EntryAfter(c: Cache, h: Hash, w: Window, calls: seq<Call>, i: nat)
    requires Valid(c, h) && i < |calls| && calls[i].Verify? && VerdictOf(c, h, w, calls, i).Accepted?
    ensures HasEntry(After(c, h, w, calls, i + 1), h, Key(calls[i].proof.jkt, calls[i].proof.jti), Expiry(w, calls[i].admitted))
  {
    AfterValid(c, h, w, calls, i);
    AcceptedRecords(After(c, h, w, calls, i), h, w, calls[i]);
  }

  predicate SamePair(p: Call, q: Call) {
    p.Verify? && q.Verify? && Key(p.proof.jkt, p.proof.jti) == Key(q.proof.jkt, q.proof.jti)
  }

  lemma {:induction false} EntryBlocksCall(c: Cache, h: Hash, w: Window, calls: seq<Call>, j: nat, exp: nat)
    requires Valid(c, h) && j < |calls| && calls[j].Verify? && calls[j].admitted < exp
    requires HasEntry(After(c, h, w, calls, j), h, Key(calls[j].proof.jkt, calls[j].proof.jti), exp)
    ensures !VerdictOf(c, h, w, calls, j).Accepted?
  {
    AfterValid(c, h, w, calls, j);
    EntryBlocks(After(c, h, w, calls, j), h, w, calls[j], exp);
  }

  lemma {:induction false} EntryBlocksLater(c: Cache, h: Hash, w: Window, calls: seq<Call>, i: nat, j: nat, exp: nat)
    requires Valid(c, h) && i <= j < |calls| && calls[j].Verify? && forall n :: i <= n <= j ==> calls[n].admitted < exp
    requires HasEntry(After(c, h, w, calls, i), h, Key(calls[j].proof.jkt, calls[j].proof.jti), exp)
    ensures !VerdictOf(c, h, w, calls, j).Accepted?
  {
    EntryStays(c, h, w, calls, i, j, Key(calls[j].proof.jkt, calls[j].proof.jti), exp);
    EntryBlocksCall(c, h, w, calls, j, exp);
  }

  lemma BlockedUntilExpiry(c: Cache, h: Hash, w: Window, calls: seq<Call>, i: nat, j: nat)
    requires Valid(c, h) && i < j < |calls| && SamePair(calls[i], calls[j]) && VerdictOf(c, h, w, calls, i).Accepted?
    requires forall n :: i < n <= j ==> calls[n].admitted < Expiry(w, calls[i].admitted)
    ensures !VerdictOf(c, h, w, calls, j).Accepted?
  {
    EntryAfter(c, h, w, calls, i);
    EntryBlocksLater(c, h, w, calls, i + 1, j, Expiry(w, calls[i].admitted));
  }

  /** Between two accepted calls of one pair, or at the second, some clock reached the expiry of the first one's entry. */
  lemma ClockReachedExpiry(c: Cache, h: Hash, w: Window, calls: seq<Call>, i: nat, j: nat) returns (n: nat)
    requires Valid(c, h) && i < j < |calls| && SamePair(calls[i], calls[j])
    requires VerdictOf(c, h, w, calls, i).Accepted? && VerdictOf(c, h, w, calls, j).Accepted?
    ensures i < n <= j && calls[n].admitted >= Expiry(w, calls[i].admitted)
  {
    if k :| i < k <= j && calls[k].admitted >= Expiry(w, calls[i].admitted) {
      n := k;
    } else {
      BlockedUntilExpiry(c, h, w, calls, i, j);
    }
  }

  lemma OrderedAt(calls: seq<Call>, drift: nat, n: nat, j: nat)
    requires Ordered(calls, drift) && n <= j < |calls| && calls[j].Verify?
    ensures calls[n].admitted <= calls[j].admitted + drift
  {
  }

  /**
   Two accepted calls with the same (thumbprint, jti): the second comes no earlier than the first
   one's replay entry lapses, but for the drift. Any run, any traffic in between.
   */
  lemma AcceptedApart(c: Cache, h: Hash, w: Window, calls: seq<Call>, i: nat, j: nat, drift: nat)
    requires Valid(c, h) && Ordered(calls, drift) && i < j < |calls| && SamePair(calls[i], calls[j])
    requires VerdictOf(c, h, w, calls, i).Accepted? && VerdictOf(c, h, w, calls, j).Accepted?
    ensures calls[j].admitted + drift >= Expiry(w, calls[i].admitted)
  {
    var n := ClockReachedExpiry(c, h, w, calls, i, j);
    OrderedAt(calls, drift, n, j);
  }

  // ---------------------------------------------------------------------------------------------
  // Accepted again, exactly when
  // ---------------------------------------------------------------------------------------------

  /**
   The proof can still pass the temporal checks of a call whose first clock reading is `lag` old when the
   replay entry of an admission at `t0` lapses.
   */
  predicate OutlivesEntry(w: Window, p: Proof, t0: nat, lag: nat) {
    && p.iat + w.age + lag >= Expiry(w, t0)
    && (p.exp.Some? ==> p.exp.value + w.skew + lag >= Expiry(w, t0))
  }

  /**
   Of every call, the clock of the temporal checks is at most `lag` behind the clock of the admission, and
   both are representable. With an overridden clock the lag is what the override makes it.
   */
  ghost predicate Lagging(calls: seq<Call>, lag: nat) {
    forall i :: 0 <= i < |calls| && calls[i].Verify? ==> InStep(calls[i], lag)
  }

  predicate InStep(call: Call, lag: nat)
    requires call.Verify?
  {
    call.admitted <= call.checked + lag && call.checked <= U64_MAX && call.admitted <= U64_MAX
  }

  /** A call accepted although its entry has lapsed shows that the proof outlives the entry. */
  lemma LateAcceptance(w: Window, p: Proof, checked: nat, t0: nat, lag: nat)
    requires Temporal(w, p, checked).Accepted? && checked + lag >= Expiry(w, t0) && checked <= U64_MAX
    ensures OutlivesEntry(w, p, t0, lag)
  {
  }

  lemma AcceptedIsTimely(c: Cache, h: Hash, w: Window, call: Call)
    requires Shaped(c) && call.Verify? && Perform(c, h, w, call).1.Accepted?
    ensures Temporal(w, call.proof, call.checked).Accepted?
  {
  }

  /** The proof is not dated ahead of the skew, not older than the age, and not past its own expiry and the skew. */
  predicate InWindow(w: Window, p: Proof, now: nat) {
    && p.iat <= SatAdd(now, w.skew) && now <= p.iat + w.age
    && (p.exp.Some? ==> now <= SatAdd(p.exp.value, w.skew))
  }

  /** The key has an unexpired entry at `now`. */
  predicate Holds(c: Cache, h: Hash, k: string, now: nat)
    requires Shaped(c)
  {
    k in c.shards[h(k)] && c.shards[h(k)][k] > now
  }

  /** The key's shard is full of unexpired entries. */
  predicate Crowded(c: Cache, h: Hash, k: string, now: nat)
    requires Shaped(c)
  {
    |Live(c.shards[h(k)], now)| >= 2048
  }

  /**
   A call is accepted if and only if its proof is sound, in its window, of a pair without an unexpired entry,
   and its shard has room; a replay and a full shard are told apart; an unsound or untimely call leaves the
   cache alone, and so does a replay.
   */
  lemma VerdictExactly(c: Cache, h: Hash, w: Window, call: Call)
    requires Valid(c, h) && call.Verify?
    ensures var k, now := Key(call.proof.jkt, call.proof.jti), call.admitted;
            var (c', v) := Perform(c, h, w, call);
            var passes := call.sound && InWindow(w, call.proof, call.checked);
            && (v.Accepted? <==> passes && !Holds(c, h, k, now) && !Crowded(c, h, k, now))
            && (v == Refused(ReplayDetected) <==> passes && Holds(c, h, k, now))
            && (v == Refused(Saturated) <==> passes && !Holds(c, h, k, now) && Crowded(c, h, k, now))
            && (v.Unsound? <==> !call.sound)
            && (!passes || Holds(c, h, k, now) ==> c'.shards == c.shards && c'.hints == c.hints)
  {
    var k, now := Key(call.proof.jkt, call.proof.jti), call.admitted;
    AdmitMeaning(c.shards[h(k)], c.hints[h(k)], k, Expiry(w, now), now);
    assert PlacedIn(c.shards[h(k)], h, h(k));
  }

  /** Which temporal check an untimely proof fails, in order: future, too old, expired. */
  lemma UntimelyExactly(w: Window, p: Proof, now: nat)
    ensures var v := Temporal(w, p, now);
            && (v.Accepted? <==> InWindow(w, p, now))
            && (v.FutureProof? <==> p.iat > SatAdd(now, w.skew))
            && (v.ProofTooOld? <==> p.iat <= SatAdd(now, w.skew) && now > p.iat + w.age)
  {
  }

  /** A proof that does not outlive its entry is accepted at most once, in every run. */
  lemma AcceptedOnce(h: Hash, w: Window, calls: seq<Call>, i: nat, j: nat, lag: nat, drift: nat)
    requires Ordered(calls, drift) && Lagging(calls, lag) && i < j < |calls| && calls[i].Verify? && calls[j].Verify?
    requires calls[i].proof == calls[j].proof
    requires !OutlivesEntry(w, calls[i].proof, calls[i].admitted, lag + drift)
    ensures !(VerdictOf(Empty(), h, w, calls, i).Accepted? && VerdictOf(Empty(), h, w, calls, j).Accepted?)
  {
    EmptyValid(h);
    assert InStep(calls[j], lag);
    if VerdictOf(Empty(), h, w, calls, i).Accepted? && VerdictOf(Empty(), h, w, calls, j).Accepted? {
      AcceptedApart(Empty(), h, w, calls, i, j, drift);
      AcceptedIsTimely(After(Empty(), h, w, calls, j), h, w, calls[j]);
      LateAcceptance(w, calls[j].proof, calls[j].checked, calls[i].admitted, lag + drift);
    }
  }

  /** Without saturation: outlived exactly by proofs dated within `lag` of the full skew ahead of the admission. */
  lemma OnlyTheBoundaryOutlives(w: Window, p: Proof, t0: nat, lag: nat)
    requires t0 + w.age + w.skew <= U64_MAX
    ensures OutlivesEntry(w, p, t0, lag) <==>
            p.iat + lag >= t0 + w.skew && (p.exp.Some? ==> p.exp.value + lag >= t0 + w.age)
  {
  }

  /** With one clock reading per call, only a proof dated exactly the full skew ahead outlives its entry. */
  lemma OneReadingBoundary(w: Window, p: Proof, t0: nat)
    requires t0 + w.age + w.skew <= U64_MAX && Temporal(w, p, t0).Accepted?
    ensures OutlivesEntry(w, p, t0, 0) <==> p.iat == t0 + w.skew && (p.exp.Some? ==> p.exp.value >= t0 + w.age)
  {
    OnlyTheBoundaryOutlives(w, p, t0, 0);
  }

  /** Some run from an empty cache accepts the proof in a first call and again later. */
  ghost predicate Replayable(h: Hash, w: Window, p: Proof, checked: nat, t0: nat, lag: nat, drift: nat) {
    exists calls, j :: Replays(h, w, p, checked, t0, lag, drift, calls, j)
  }

  ghost predicate Replays(h: Hash, w: Window, p: Proof, checked: nat, t0: nat, lag: nat, drift: nat, calls: seq<Call>, j: nat) {
    && Ordered(calls, drift) && Lagging(calls, lag) && 0 < j < |calls|
    && calls[0] == Verify(p, true, checked, t0) && calls[j].Verify? && calls[j].proof == p
    && VerdictOf(Empty(), h, w, calls, 0).Accepted? && VerdictOf(Empty(), h, w, calls, j).Accepted?
  }

  /**
   The exact condition, for every lag between the two clock readings of a call and every drift between
   calls: a proof accepted at `t0` can be accepted again if and only if it outlives its entry by both.
   */
  lemma ReplayableExactly(h: Hash, w: Window, p: Proof, checked: nat, t0: nat, lag: nat, drift: nat)
    requires InStep(Verify(p, true, checked, t0), lag) && Temporal(w, p, checked).Accepted?
    ensures Replayable(h, w, p, checked, t0, lag, drift) <==> OutlivesEntry(w, p, t0, lag + drift)
  {
    if Replayable(h, w, p, checked, t0, lag, drift) && !OutlivesEntry(w, p, t0, lag + drift) {
      var calls, j :| Replays(h, w, p, checked, t0, lag, drift, calls, j);
      AcceptedOnce(h, w, calls, 0, j, lag, drift);
    }
    if OutlivesEntry(w, p, t0, lag + drift) {
      BoundaryReplay(h, w, p, checked, t0, lag, drift);
    }
  }

  /** A clock the temporal checks of a second call can read when that call is admitted at `e`. */
  function SecondReading(checked: nat, e: nat, lag: nat): nat {
    if checked + lag >= e then checked else e - lag
  }

  lemma StillTimely(w: Window, p: Proof, checked: nat, t0: nat, lag: nat, drift: nat)
    requires InStep(Verify(p, true, checked, t0), lag) && Temporal(w, p, checked).Accepted?
    requires OutlivesEntry(w, p, t0, lag + drift)
    ensures var e := SatSub(Expiry(w, t0), drift); var c := SecondReading(checked, e, lag);
            Temporal(w, p, c).Accepted? && InStep(Verify(p, true, c, e), lag)
  {
  }

  lemma AdmitsIntoEmpty(h: Hash, k: string, exp: nat, now: nat)
    ensures var (c, r) := AfterCheck(Empty(), h, k, exp, now);
            && r.Recorded? && c.shards[h(k)] == map[k := exp]
            && |c.shards| == |c.hints| == NUM_SHARDS
  {
  }

  /** A sweep in the second the entry lapses frees its key. */
  lemma AdmitsSwept(h: Hash, k: string, exp: nat, now: nat, next: nat, again: nat)
    ensures var c := AfterCheck(Empty(), h, k, exp, now).0;
            Shaped(c) && AfterCheck(PruneShard(c, h(k), exp), h, k, next, again).1.Recorded?
  {
    AdmitsIntoEmpty(h, k, exp, now);
    assert Retain(map[k := exp], Unexpired(exp)) == map[];
  }

  /** The proof is admitted, its entry swept when it lapses, and a call that read its clock before admits it again. */
  lemma BoundaryReplay(h: Hash, w: Window, p: Proof, checked: nat, t0: nat, lag: nat, drift: nat)
    requires InStep(Verify(p, true, checked, t0), lag) && Temporal(w, p, checked).Accepted?
    requires OutlivesEntry(w, p, t0, lag + drift)
    ensures Replayable(h, w, p, checked, t0, lag, drift)
  {
    var e := Expiry(w, t0);
    var late := SatSub(e, drift);
    var k := Key(p.jkt, p.jti);
    var first, sweep := Verify(p, true, checked, t0), Sweep(h(k), e);
    var calls := [first, sweep, Verify(p, true, SecondReading(checked, late, lag), late)];
    StillTimely(w, p, checked, t0, lag, drift);
    AdmitsIntoEmpty(h, k, e, t0);
    AdmitsSwept(h, k, e, t0, Expiry(w, late), late);
    assert After(Empty(), h, w, calls, 0) == Empty();
    assert After(Empty(), h, w, calls, 1) == Perform(Empty(), h, w, first).0;
    assert After(Empty(), h, w, calls, 2) == PruneShard(Perform(Empty(), h, w, first).0, h(k), e);
    assert Replays(h, w, p, checked, t0, lag, drift, calls, 2);
  }

  /** With the default 60 s skew and 300 s age, a proof dated 60 s ahead is accepted now and 360 s later. */
  lemma DefaultWindowReplay(h: Hash)
    ensures Replayable(h, Window(60, 300), Proof("jkt", "jti", 1060, None), 1000, 1000, 0, 0)
  {
    ReplayableExactly(h, Window(60, 300), Proof("jkt", "jti", 1060, None), 1000, 1000, 0, 0);
  }

  /**
   If a second passes between the two readings of a call, or between its second reading and the lock, a
   proof dated 59 s ahead is accepted twice as well.
   */
  lemma LaggingReplay(h: Hash)
    ensures Replayable(h, Window(60, 300), Proof("jkt", "jti", 1059, None), 1000, 1000, 1, 0)
    ensures Replayable(h, Window(60, 300), Proof("jkt", "jti", 1059, None), 1000, 1000, 0, 1)
    ensures !Replayable(h, Window(60, 300), Proof("jkt", "jti", 1059, None), 1000, 1000, 0, 0)
  {
    ReplayableExactly(h, Window(60, 300), Proof("jkt", "jti", 1059, None), 1000, 1000, 1, 0);
    ReplayableExactly(h, Window(60, 300), Proof("jkt", "jti", 1059, None), 1000, 1000, 0, 1);
    ReplayableExactly(h, Window(60, 300), Proof("jkt", "jti", 1059, None), 1000, 1000, 0, 0);
  }

  /** The verifier over its replay cache; without one, replay prevention is off. */
  class DPoPVerifier {
    const window: Window
    const cache: DPoPReplayCache?

    constructor (w: Window, c: DPoPReplayCache?)
      ensures window == w && cache == c
    {
      window := w;
      cache := c;
    }

    /** Temporal checks, then immediate admission to the replay cache if there is one. */
    method VerifyProof(p: Proof, sound: bool, checked: nat, admitted: nat) returns (v: Verdict)
      requires cache != null ==> cache.Ok()
      modifies cache
      ensures cache == null ==> v == if sound then Temporal(window, p, checked) else Unsound
      ensures cache != null ==>
                && cache.Ok()
                && (cache.State(), v)
                   == Perform(old(cache.State()), cache.hash, window, Verify(p, sound, checked, admitted))
    {
      if !sound {
        return Unsound;
      }
      if p.iat > SatAdd(checked, window.skew) {
        return FutureProof;
      }
      if SatSub(checked, p.iat) > window.age {
        return ProofTooOld;
      }
      if p.exp.Some? && SatAdd(p.exp.value, window.skew) < checked {
        return ExpiredProof;
      }
      if cache == null {
        return Accepted;
      }
      var expiresAt := SatAdd(SatAdd(admitted, window.age), window.skew);
      var r := cache.CheckAndRecord(p.jkt, p.jti, expiresAt, admitted);
      return if r.Recorded? then Accepted else Refused(r);
    }
  }
}
