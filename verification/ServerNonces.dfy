/**
 Server-issued DPoP challenge nonces with a per-second issuance limit (`InMemoryServerNonceSource`,
 section 8 of RFC 9449).
 */
module ServerNonces {
  import opened Clock
  import opened Text
  import opened Shards
  import opened IssuanceRate

  const NONCE_PRUNE_THRESHOLD: nat := 1024
  const NONCE_CACHE_CAPACITY: nat := 4096

  datatype Config = Config(ttl: nat, singleUse: bool, limit: nat)

  /** Expiry per nonce, and the limiter: the second it counts for and the count. */
  datatype Source = Source(nonces: map<string, nat>, window: nat, count: nat)

  function Fresh(): Source { Source(map[], 0, 0) }

  /** The limiter block of `generate_nonce`. */
  function Limit(src: Source, cfg: Config, now: nat): (Source, bool) {
    var count := if src.window != now then 0 else src.count;
    if count >= cfg.limit then (src.(window := now, count := count), false)
    else (src.(window := now, count := count + 1), true)
  }

  /** The nonces left after the opportunistic prune of `generate_nonce`. */
  function Kept(nonces: map<string, nat>, now: nat): (r: map<string, nat>)
    ensures |r| <= |nonces|
    ensures forall n :: n in r ==> n in nonces && r[n] == nonces[n]
    ensures forall n :: n in nonces && nonces[n] > now ==> n in r
  {
    if |nonces| > NONCE_PRUNE_THRESHOLD then Retain(nonces, Unexpired(now)) else nonces
  }

  /** The storing block of `generate_nonce`, with the clock read at the start of the call. */
  function Store(src: Source, cfg: Config, now: nat, nonce: string): (Source, bool) {
    var kept := Kept(src.nonces, now);
    if |kept| >= NONCE_CACHE_CAPACITY then (src.(nonces := kept), false)
    else (src.(nonces := kept[nonce := SatAdd(now, cfg.ttl)]), true)
  }

  /** `generate_nonce` run without interruption; `None` is `NonceCacheSaturated`. */
  function Generate(src: Source, cfg: Config, now: nat, nonce: string): (Source, Option<string>) {
    var (src1, admitted) := Limit(src, cfg, now);
    if !admitted then (src1, None)
    else
      var (src2, stored) := Store(src1, cfg, now, nonce);
      (src2, if stored then Some(nonce) else None)
  }

  /** `verify_nonce`. */
  function Present(src: Source, cfg: Config, nonce: string, now: nat): (Source, bool) {
    var n := Trim(nonce);
    if n in src.nonces && src.nonces[n] > now then
      (if cfg.singleUse then src.(nonces := src.nonces - {n}) else src, true)
    else (src, false)
  }

  function Sweep(src: Source, now: nat): Source { src.(nonces := Retain(src.nonces, Unexpired(now))) }

  // ---------------------------------------------------------------------------------------------
  // Interleaved runs
  // ---------------------------------------------------------------------------------------------

  /** One lock-guarded block of some call. `Mint` carries the clock its call read before the limiter block. */
  datatype Event =
    | Admit(now: nat)
    | Mint(now: nat, nonce: string)
    | Check(nonce: string, now: nat)
    | Prune(now: nat)

  /**
   The source together with what an outside observer has seen: the clock readings that reached the limiter,
   in its lock's order, calls admitted by it but not finished, admissions and mintings per second, the expiry
   of every nonce ever minted, and the nonces whose presentation was accepted, in order.
   */
  datatype World = World(
    src: Source,
    clock: nat,
    readings: seq<nat>,
    pending: multiset<nat>,
    admitted: multiset<nat>,
    mintedAt: multiset<nat>,
    minted: map<string, nat>,
    accepted: seq<string>)

  function Begin(): World { World(Fresh(), 0, [], multiset{}, multiset{}, multiset{}, map[], []) }

  /** Clocks of verifications never go back, a nonce is new, a minting call passed the limiter. */
  predicate Enabled(w: World, e: Event) {
    match e
    case Admit(_) => true
    case Mint(now, nonce) => now in w.pending && nonce !in w.minted
    case Check(_, now) => now >= w.clock
    case Prune(_) => true
  }

  function Tick(w: World, now: nat): World { w.(clock := if now > w.clock then now else w.clock) }

  function Apply(w: World, cfg: Config, e: Event): World {
    match e
    case Admit(now) =>
      var (src, ok) := Limit(w.src, cfg, now);
      var one := if ok then multiset{now} else multiset{};
      Tick(w.(src := src, readings := w.readings + [now], pending := w.pending + one, admitted := w.admitted + one), now)
    case Mint(now, nonce) =>
      var (src, ok) := Store(w.src, cfg, now, nonce);
      var rest := w.(src := src, pending := w.pending - multiset{now});
      if ok then rest.(minted := w.minted[nonce := SatAdd(now, cfg.ttl)], mintedAt := w.mintedAt + multiset{now})
      else rest
    case Check(nonce, now) =>
      var (src, ok) := Present(w.src, cfg, nonce, now);
      Tick(w.(src := src, accepted := if ok then w.accepted + [Trim(nonce)] else w.accepted), now)
    case Prune(now) => Tick(w.(src := Sweep(w.src, now)), now)
  }

  function Exec(w: World, cfg: Config, es: seq<Event>): Option<World>
    decreases |es|
  {
    if es == [] then Some(w)
    else if Enabled(w, es[0]) then Exec(Apply(w, cfg, es[0]), cfg, es[1..])
    else None
  }

  /** The nonce was minted, has not expired at `now`, and is not used up. */
  predicate Usable(w: World, cfg: Config, n: string, now: nat) {
    n in w.minted && w.minted[n] > now && (cfg.singleUse ==> n !in w.accepted)
  }

  /** The limiter stands as its readings say, and has admitted exactly the readings it grants. */
  ghost predicate LimiterInv(w: World, cfg: Config) {
    && Counts(w.readings, cfg.limit, w.src.window, w.src.count)
    && (forall s :: w.admitted[s] == Granted(w.readings, |w.readings|, s, cfg.limit))
  }

  /** Calls under way and mintings are of admitted readings, none of them in the future. */
  ghost predicate PendingInv(w: World) {
    && (forall s :: w.mintedAt[s] + w.pending[s] <= w.admitted[s])
    && (forall s :: s in w.pending ==> s <= w.clock)
  }

  /** What is stored was minted and is not used up; what is still usable is stored. */
  ghost predicate StoreInv(w: World, cfg: Config) {
    && |w.src.nonces| <= NONCE_CACHE_CAPACITY
    && (forall n :: n in w.src.nonces ==> n in w.minted && w.minted[n] == w.src.nonces[n])
    && (cfg.singleUse ==> forall n :: n in w.src.nonces ==> n !in w.accepted)
    && (forall n :: n in w.minted && Usable(w, cfg, n, w.clock) ==> n in w.src.nonces)
    && (forall n :: n in w.accepted ==> n in w.minted)
  }

  ghost predicate Distinct(s: seq<string>) {
    forall i, j :: 0 <= i < j < |s| ==> s[i] != s[j]
  }

  lemma AdmitLimiterInv(w: World, cfg: Config, now: nat)
    requires LimiterInv(w, cfg)
    ensures LimiterInv(Apply(w, cfg, Admit(now)), cfg)
  {
    var w' := Apply(w, cfg, Admit(now));
    LimiterGrants(w.readings, cfg.limit, w.src.window, w.src.count, now);
    forall s ensures w'.admitted[s] == Granted(w'.readings, |w'.readings|, s, cfg.limit) {
      GrantedStable(w.readings, now, |w.readings|, s, cfg.limit);
    }
  }

  lemma StepLimiterInv(w: World, cfg: Config, e: Event)
    requires LimiterInv(w, cfg) && Enabled(w, e)
    ensures LimiterInv(Apply(w, cfg, e), cfg)
  {
    if e.Admit? {
      AdmitLimiterInv(w, cfg, e.now);
    }
  }

  lemma AdmitPendingInv(w: World, cfg: Config, now: nat)
    requires PendingInv(w)
    ensures PendingInv(Apply(w, cfg, Admit(now)))
  {
    var w' := Apply(w, cfg, Admit(now));
    forall s ensures w'.mintedAt[s] + w'.pending[s] <= w'.admitted[s] {
      assert w.mintedAt[s] + w.pending[s] <= w.admitted[s];
    }
  }

  lemma MintPendingInv(w: World, cfg: Config, now: nat, nonce: string)
    requires PendingInv(w) && Enabled(w, Mint(now, nonce))
    ensures PendingInv(Apply(w, cfg, Mint(now, nonce)))
  {
    var w' := Apply(w, cfg, Mint(now, nonce));
    forall s ensures w'.mintedAt[s] + w'.pending[s] <= w'.admitted[s] {
      assert w.mintedAt[s] + w.pending[s] <= w.admitted[s];
    }
  }

  lemma StepPendingInv(w: World, cfg: Config, e: Event)
    requires PendingInv(w) && Enabled(w, e)
    ensures PendingInv(Apply(w, cfg, e))
  {
    match e
    case Admit(now) => AdmitPendingInv(w, cfg, now);
    case Mint(now, nonce) => MintPendingInv(w, cfg, now, nonce);
    case Check(_, _) =>
    case Prune(_) =>
  }

  /** The stored nonces may shrink by expired ones only, and the clock may advance. */
  lemma ShrinkStoreInv(w: World, cfg: Config, w': World)
    requires StoreInv(w, cfg)
    requires w'.minted == w.minted && w'.accepted == w.accepted && w'.clock >= w.clock
    requires |w'.src.nonces| <= |w.src.nonces|
    requires forall n :: n in w'.src.nonces ==> n in w.src.nonces && w'.src.nonces[n] == w.src.nonces[n]
    requires forall n :: n in w.src.nonces && w.src.nonces[n] > w'.clock ==> n in w'.src.nonces
    ensures StoreInv(w', cfg)
  {
  }

  /** `w'` is `w` with one nonce newly minted and stored. */
  lemma InsertStoreInv(w: World, cfg: Config, w': World, nonce: string, exp: nat)
    requires StoreInv(w, cfg) && nonce !in w.minted && |w.src.nonces| < NONCE_CACHE_CAPACITY
    requires w'.accepted == w.accepted && w'.clock == w.clock
    requires w'.src.nonces == w.src.nonces[nonce := exp] && w'.minted == w.minted[nonce := exp]
    ensures StoreInv(w', cfg)
  {
    InsertSize(w.src.nonces, nonce, exp);
  }

  lemma MintStoreInv(w: World, cfg: Config, now: nat, nonce: string)
    requires StoreInv(w, cfg) && now <= w.clock && nonce !in w.minted
    ensures StoreInv(Apply(w, cfg, Mint(now, nonce)), cfg)
  {
    var kept := Kept(w.src.nonces, now);
    var mid := w.(src := w.src.(nonces := kept));
    ShrinkStoreInv(w, cfg, mid);
    var w' := Apply(w, cfg, Mint(now, nonce));
    if |kept| < NONCE_CACHE_CAPACITY {
      InsertStoreInv(mid, cfg, w', nonce, SatAdd(now, cfg.ttl));
    } else {
      ShrinkStoreInv(w, cfg, w');
    }
  }

  /** `w'` is `w` after the stored nonce `n` was accepted, and used up in single-use mode. */
  lemma AcceptStoreInv(w: World, cfg: Config, w': World, n: string)
    requires StoreInv(w, cfg) && n in w.src.nonces
    requires w'.accepted == w.accepted + [n] && w'.clock >= w.clock && w'.minted == w.minted
    requires w'.src.nonces == if cfg.singleUse then w.src.nonces - {n} else w.src.nonces
    ensures StoreInv(w', cfg)
  {
    MapSize(w'.src.nonces, w.src.nonces);
    assert forall k :: k in w'.accepted <==> k in w.accepted || k == n;
  }

  lemma CheckStoreInv(w: World, cfg: Config, nonce: string, now: nat)
    requires StoreInv(w, cfg) && now >= w.clock
    ensures StoreInv(Apply(w, cfg, Check(nonce, now)), cfg)
  {
    var w' := Apply(w, cfg, Check(nonce, now));
    if Present(w.src, cfg, nonce, now).1 {
      AcceptStoreInv(w, cfg, w', Trim(nonce));
    } else {
      ShrinkStoreInv(w, cfg, w');
    }
  }

  lemma StepStoreInv(w: World, cfg: Config, e: Event)
    requires StoreInv(w, cfg) && Enabled(w, e) && PendingInv(w)
    ensures StoreInv(Apply(w, cfg, e), cfg)
  {
    match e
    case Admit(_) => ShrinkStoreInv(w, cfg, Apply(w, cfg, e));
    case Mint(now, nonce) => MintStoreInv(w, cfg, now, nonce);
    case Check(nonce, now) => CheckStoreInv(w, cfg, nonce, now);
    case Prune(_) => ShrinkStoreInv(w, cfg, Apply(w, cfg, e));
  }

  /** A presentation is accepted exactly when the nonce is usable, whatever was pruned and when. */
  lemma AcceptsExactlyUsable(w: World, cfg: Config, nonce: string, now: nat)
    requires StoreInv(w, cfg) && now >= w.clock
    ensures Present(w.src, cfg, nonce, now).1 <==> Usable(w, cfg, Trim(nonce), now)
  {
  }

  ghost predicate WorldInv(w: World, cfg: Config) {
    LimiterInv(w, cfg) && PendingInv(w) && StoreInv(w, cfg) && (cfg.singleUse ==> Distinct(w.accepted))
  }

  lemma AppendDistinct(accepted: seq<string>, n: string)
    requires Distinct(accepted) && n !in accepted
    ensures Distinct(accepted + [n])
  {
  }

  lemma StepDistinct(w: World, cfg: Config, e: Event)
    requires StoreInv(w, cfg) && Enabled(w, e) && cfg.singleUse && Distinct(w.accepted)
    ensures Distinct(Apply(w, cfg, e).accepted)
  {
    if e.Check? {
      AcceptsExactlyUsable(w, cfg, e.nonce, e.now);
      if Present(w.src, cfg, e.nonce, e.now).1 {
        AppendDistinct(w.accepted, Trim(e.nonce));
      }
    }
  }

  lemma StepWorldInv(w: World, cfg: Config, e: Event)
    requires WorldInv(w, cfg) && Enabled(w, e)
    ensures WorldInv(Apply(w, cfg, e), cfg)
  {
    StepLimiterInv(w, cfg, e);
    StepPendingInv(w, cfg, e);
    StepStoreInv(w, cfg, e);
    if cfg.singleUse {
      StepDistinct(w, cfg, e);
    }
  }

  lemma {:induction false} RunWorldInv(w: World, cfg: Config, es: seq<Event>)
    requires WorldInv(w, cfg) && Exec(w, cfg, es).Some?
    ensures WorldInv(Exec(w, cfg, es).value, cfg)
    decreases |es|
  {
    if es != [] {
      StepWorldInv(w, cfg, es[0]);
      RunWorldInv(Apply(w, cfg, es[0]), cfg, es[1..]);
    }
  }

  /**
   Over every interleaved run with nondecreasing verification clocks: at most 4096 nonces are stored, a
   nonce is accepted exactly while it is usable, in single-use mode no nonce is accepted twice, and at most
   the rate limit is minted in a second read no more often than that, or without interruption.
   */
  lemma {:induction false} NonceGuarantees(cfg: Config, es: seq<Event>, nonce: string, now: nat)
    requires Exec(Begin(), cfg, es).Some?
    ensures var w := Exec(Begin(), cfg, es).value;
            && (forall s :: WithinLimit(w.readings, s, cfg.limit) ==> w.mintedAt[s] <= cfg.limit)
            && |w.src.nonces| <= 4096
            && (now >= w.clock ==> (Present(w.src, cfg, nonce, now).1 <==> Usable(w, cfg, Trim(nonce), now)))
            && (cfg.singleUse ==> Distinct(w.accepted))
  {
    RunWorldInv(Begin(), cfg, es);
    var w := Exec(Begin(), cfg, es).value;
    forall s | WithinLimit(w.readings, s, cfg.limit) ensures w.mintedAt[s] <= cfg.limit {
      BoundHoldsExactly(w.readings, s, cfg.limit);
      assert w.mintedAt[s] + w.pending[s] <= w.admitted[s];
    }
    if now >= w.clock {
      AcceptsExactlyUsable(w, cfg, nonce, now);
    }
  }

  /**
   What the limiter has admitted of each second is exactly what its readings, in lock order, are granted, and
   more than its limit exactly when the second was read more often and with interruptions.
   */
  lemma {:induction false} AdmittedExactly(cfg: Config, es: seq<Event>, s: nat)
    requires Exec(Begin(), cfg, es).Some?
    ensures var w := Exec(Begin(), cfg, es).value;
            && w.admitted[s] == Granted(w.readings, |w.readings|, s, cfg.limit)
            && (w.admitted[s] <= cfg.limit <==> WithinLimit(w.readings, s, cfg.limit))
            && w.mintedAt[s] + w.pending[s] <= w.admitted[s]
  {
    RunWorldInv(Begin(), cfg, es);
    BoundHoldsExactly(Exec(Begin(), cfg, es).value.readings, s, cfg.limit);
  }

  // ---------------------------------------------------------------------------------------------
  // Runs that mint all they may
  // ---------------------------------------------------------------------------------------------

  ghost predicate Reachable(cfg: Config, w: World) { exists es :: Exec(Begin(), cfg, es) == Some(w) }

  lemma {:induction false} ExecAppend(w: World, cfg: Config, es: seq<Event>, e: Event)
    requires Exec(w, cfg, es).Some? && Enabled(Exec(w, cfg, es).value, e)
    ensures Exec(w, cfg, es + [e]) == Some(Apply(Exec(w, cfg, es).value, cfg, e))
    decreases |es|
  {
    if es == [] {
      assert (es + [e])[1..] == [];
    } else {
      assert (es + [e])[1..] == es[1..] + [e];
      ExecAppend(Apply(w, cfg, es[0]), cfg, es[1..], e);
    }
  }

  lemma ReachableStep(cfg: Config, w: World, w': World, e: Event)
    requires Reachable(cfg, w) && Enabled(w, e) && w' == Apply(w, cfg, e)
    ensures Reachable(cfg, w')
  {
    var es :| Exec(Begin(), cfg, es) == Some(w);
    ExecAppend(Begin(), cfg, es, e);
    assert Exec(Begin(), cfg, es + [e]) == Some(w');
  }

  /** Every admitted call has minted its nonce, and the nonces have expired since. */
  ghost predicate MintedAll(w: World, rs: seq<nat>) {
    && w.readings == rs && w.mintedAt == w.admitted && w.src.nonces == map[]
    && forall n :: n in w.minted ==> |n| < |rs|
  }

  lemma SweepsAll(nonces: map<string, nat>)
    requires forall n :: n in nonces ==> nonces[n] <= U64_MAX
    ensures Retain(nonces, Unexpired(U64_MAX)) == map[]
  {
  }

  lemma MintsAfter(w: World, cfg: Config, now: nat, nonce: string)
    requires now in w.pending && w.src.nonces == map[]
    ensures var w' := Apply(w, cfg, Mint(now, nonce));
            && w'.src.nonces == map[nonce := SatAdd(now, cfg.ttl)] && w'.minted.Keys == w.minted.Keys + {nonce}
            && w'.mintedAt == w.mintedAt + multiset{now} && w'.readings == w.readings && w'.admitted == w.admitted
  {
  }

  /** A minted nonce expires before anything else happens. */
  lemma Lapses(cfg: Config, w: World, n: string, exp: nat) returns (w': World)
    requires Reachable(cfg, w) && w.src.nonces == map[n := exp] && exp <= U64_MAX
    ensures Reachable(cfg, w') && w' == Apply(w, cfg, Prune(U64_MAX)) && w'.src.nonces == map[]
  {
    w' := Apply(w, cfg, Prune(U64_MAX));
    SweepsAll(w.src.nonces);
    ReachableStep(cfg, w, w', Prune(U64_MAX));
  }

  /** `w'` is `w` with one more reading, and the call it belongs to admitted if `ok`. */
  predicate AdmittedOne(w: World, w': World, now: nat, ok: bool) {
    && w'.readings == w.readings + [now] && w'.src.nonces == w.src.nonces && w'.minted == w.minted
    && w'.mintedAt == w.mintedAt && w'.admitted == w.admitted + (if ok then multiset{now} else multiset{})
    && (ok ==> now in w'.pending)
  }

  lemma AdmitsOne(w: World, cfg: Config, now: nat)
    ensures AdmittedOne(w, Apply(w, cfg, Admit(now)), now, Limit(w.src, cfg, now).1)
  {
  }

  lemma MintsAdmitted(cfg: Config, w: World, w1: World, rs: seq<nat>, now: nat) returns (w': World)
    requires MintedAll(w, rs) && Reachable(cfg, w1) && AdmittedOne(w, w1, now, true)
    ensures Reachable(cfg, w') && MintedAll(w', rs + [now])
  {
    var nonce := seq(|rs|, _ => 'n');
    MintsAfter(w1, cfg, now, nonce);
    var w2 := Apply(w1, cfg, Mint(now, nonce));
    ReachableStep(cfg, w1, w2, Mint(now, nonce));
    w' := Lapses(cfg, w2, nonce, SatAdd(now, cfg.ttl));
  }

  lemma MintsNext(cfg: Config, w: World, rs: seq<nat>, now: nat) returns (w': World)
    requires Reachable(cfg, w) && MintedAll(w, rs)
    ensures Reachable(cfg, w') && MintedAll(w', rs + [now])
  {
    w' := Apply(w, cfg, Admit(now));
    ReachableStep(cfg, w, w', Admit(now));
    AdmitsOne(w, cfg, now);
    if Limit(w.src, cfg, now).1 {
      w' := MintsAdmitted(cfg, w, w', rs, now);
    }
  }

  /** Any readings, in any order, are those of some run that mints a nonce for each admitted call. */
  lemma {:induction false} MintsForAll(cfg: Config, rs: seq<nat>) returns (w: World)
    ensures Reachable(cfg, w) && MintedAll(w, rs)
    decreases |rs|
  {
    if rs == [] {
      assert Exec(Begin(), cfg, []) == Some(Begin());
      w := Begin();
    } else {
      var n := |rs| - 1;
      var before := MintsForAll(cfg, rs[..n]);
      assert rs[..n] + [rs[n]] == rs;
      w := MintsNext(cfg, before, rs[..n], rs[n]);
    }
  }

  /**
   For every configured limit and all readings: no run with these readings mints more than the limit in
   second `s` if and only if `s` was read at most that often, or without interruption.
   */
  lemma {:induction false} MintedExactly(cfg: Config, rs: seq<nat>, s: nat)
    ensures (forall w :: Reachable(cfg, w) && w.readings == rs ==> w.mintedAt[s] <= cfg.limit)
            <==> WithinLimit(rs, s, cfg.limit)
  {
    if WithinLimit(rs, s, cfg.limit) {
      forall w | Reachable(cfg, w) && w.readings == rs ensures w.mintedAt[s] <= cfg.limit {
        var es :| Exec(Begin(), cfg, es) == Some(w);
        AdmittedExactly(cfg, es, s);
      }
    } else {
      var w := MintsForAll(cfg, rs);
      var es :| Exec(Begin(), cfg, es) == Some(w);
      AdmittedExactly(cfg, es, s);
    }
  }

  lemma {:induction false} TimesOfRepeated(rs: seq<nat>, n: nat, s: nat)
    requires n <= |rs| && forall i :: 0 <= i < n ==> rs[i] == s
    ensures Times(rs, n, s) == n
  {
    if n > 0 {
      TimesOfRepeated(rs, n - 1, s);
    }
  }

  /** Second `s` read up to the limit, then another, then `s` again: one nonce too many in `s`. */
  lemma ReturningReadingExceeds(cfg: Config, s: nat, t: nat)
    requires cfg.limit >= 1 && s != t
    ensures exists w :: Reachable(cfg, w) && w.mintedAt[s] > cfg.limit
  {
    var n := cfg.limit;
    var rs := seq(n, _ => s) + [t, s];
    TimesOfRepeated(rs, n, s);
    assert Times(rs, n + 1, s) == n && Times(rs, n + 2, s) == n + 1;
    assert rs[0] == s && rs[n] == t && rs[n + 1] == s;
    MintedExactly(cfg, rs, s);
  }

  // ---------------------------------------------------------------------------------------------
  // Whole calls
  // ---------------------------------------------------------------------------------------------

  /**
   A call of `generate_nonce` without interruption is its limiter block and, if that admits it, its storing
   block; it answers with its nonce exactly when both go through.
   */
  lemma GenerateIsBlocks(w: World, cfg: Config, now: nat, nonce: string)
    requires nonce !in w.minted
    ensures var w1 := Apply(w, cfg, Admit(now));
            var (src, r) := Generate(w.src, cfg, now, nonce);
            && (w1.admitted == w.admitted ==> src == w1.src && r == None)
            && (w1.admitted != w.admitted ==>
                  && Enabled(w1, Mint(now, nonce))
                  && var w2 := Apply(w1, cfg, Mint(now, nonce));
                     && src == w2.src
                     && r == if w2.mintedAt == w.mintedAt + multiset{now} then Some(nonce) else None)
  {
    var w1 := Apply(w, cfg, Admit(now));
    AdmitsOne(w, cfg, now);
    var ok := Limit(w.src, cfg, now).1;
    assert (w.admitted + multiset{now})[now] == w.admitted[now] + 1;
    if ok {
      assert w1.mintedAt == w.mintedAt;
      assert (w.mintedAt + multiset{now})[now] == w.mintedAt[now] + 1;
    }
  }

  /** The source after the first `n` of a list of whole calls, and the readings they brought. */
  function AfterCalls(src: Source, cfg: Config, calls: seq<(nat, string)>, n: nat): Source
    requires n <= |calls|
  {
    if n == 0 then src
    else Generate(AfterCalls(src, cfg, calls, n - 1), cfg, calls[n - 1].0, calls[n - 1].1).0
  }

  function Readings(calls: seq<(nat, string)>, n: nat): (rs: seq<nat>)
    requires n <= |calls|
    ensures |rs| == n && forall i :: 0 <= i < n ==> rs[i] == calls[i].0
  {
    seq(n, i requires 0 <= i < n => calls[i].0)
  }

  lemma ReadingsNext(calls: seq<(nat, string)>, n: nat)
    requires n < |calls|
    ensures Readings(calls, n + 1) == Readings(calls, n) + [calls[n].0]
  {
  }

  /** How many of the first `n` calls were given a nonce in second `s`. */
  function Issued(src: Source, cfg: Config, calls: seq<(nat, string)>, n: nat, s: nat): nat
    requires n <= |calls|
  {
    if n == 0 then 0
    else
      var r := Generate(AfterCalls(src, cfg, calls, n - 1), cfg, calls[n - 1].0, calls[n - 1].1).1;
      Issued(src, cfg, calls, n - 1, s) + if calls[n - 1].0 == s && r.Some? then 1 else 0
  }

  /** One call moves the limiter as its reading says, and is given a nonce only if granted. */
  lemma {:induction false} GenerateCounts(src: Source, cfg: Config, rs: seq<nat>, now: nat, nonce: string)
    requires Counts(rs, cfg.limit, src.window, src.count)
    ensures var (src', r) := Generate(src, cfg, now, nonce);
            && Counts(rs + [now], cfg.limit, src'.window, src'.count)
            && (r.Some? ==> RunAt(rs + [now], |rs|) <= cfg.limit)
  {
    LimiterGrants(rs, cfg.limit, src.window, src.count, now);
  }

  ghost predicate CallsCounted(src: Source, cfg: Config, calls: seq<(nat, string)>, n: nat)
    requires n <= |calls|
  {
    var after := AfterCalls(src, cfg, calls, n);
    Counts(Readings(calls, n), cfg.limit, after.window, after.count)
  }

  lemma {:induction false} CallsCountNext(src: Source, cfg: Config, calls: seq<(nat, string)>, n: nat)
    requires n < |calls| && CallsCounted(src, cfg, calls, n)
    ensures CallsCounted(src, cfg, calls, n + 1)
  {
    ReadingsNext(calls, n);
    GenerateCounts(AfterCalls(src, cfg, calls, n), cfg, Readings(calls, n), calls[n].0, calls[n].1);
  }

  lemma CallsCount(src: Source, cfg: Config, calls: seq<(nat, string)>, n: nat)
    requires src == Fresh() && n <= |calls|
    ensures CallsCounted(src, cfg, calls, n)
  {
    for i := 0 to n
      invariant CallsCounted(src, cfg, calls, i)
    {
      CallsCountNext(src, cfg, calls, i);
    }
  }

  /** One more call is given a nonce only if its reading is granted. */
  lemma {:induction false} IssuedNext(src: Source, cfg: Config, calls: seq<(nat, string)>, n: nat, s: nat)
    requires src == Fresh() && n < |calls|
    ensures Issued(src, cfg, calls, n + 1, s) <= Issued(src, cfg, calls, n, s)
            + if calls[n].0 == s && RunAt(Readings(calls, n + 1), n) <= cfg.limit then 1 else 0
  {
    CallsCount(src, cfg, calls, n);
    ReadingsNext(calls, n);
    GenerateCounts(AfterCalls(src, cfg, calls, n), cfg, Readings(calls, n), calls[n].0, calls[n].1);
  }

  lemma {:induction false} GrantedReading(calls: seq<(nat, string)>, n: nat, s: nat, limit: nat)
    requires n < |calls|
    ensures Granted(Readings(calls, n + 1), n + 1, s, limit) == Granted(Readings(calls, n), n, s, limit)
            + if calls[n].0 == s && RunAt(Readings(calls, n + 1), n) <= limit then 1 else 0
  {
    ReadingsNext(calls, n);
    GrantedNext(Readings(calls, n), calls[n].0, s, limit);
  }

  lemma {:induction false} IssuedIsGranted(src: Source, cfg: Config, calls: seq<(nat, string)>, n: nat, s: nat)
    requires src == Fresh() && n <= |calls|
    ensures Issued(src, cfg, calls, n, s) <= Granted(Readings(calls, n), n, s, cfg.limit)
  {
    for i := 0 to n
      invariant Issued(src, cfg, calls, i, s) <= Granted(Readings(calls, i), i, s, cfg.limit)
    {
      IssuedNext(src, cfg, calls, i, s);
      GrantedReading(calls, i, s, cfg.limit);
    }
  }

  /**
   Whole calls one after the other: in a second read at most as often as the limit allows, or without
   interruption, at most the limit of them are given a nonce.
   */
  lemma {:induction false} IssuedWithinLimit(src: Source, cfg: Config, calls: seq<(nat, string)>, s: nat)
    requires src == Fresh() && WithinLimit(Readings(calls, |calls|), s, cfg.limit)
    ensures Issued(src, cfg, calls, |calls|, s) <= cfg.limit
  {
    IssuedIsGranted(src, cfg, calls, |calls|, s);
    BoundHoldsExactly(Readings(calls, |calls|), s, cfg.limit);
  }

  /** A call is given its nonce if and only if its second has quota left and fewer than 4096 unexpired nonces are stored. */
  lemma GeneratedExactly(src: Source, cfg: Config, now: nat, nonce: string)
    ensures var (src', r) := Generate(src, cfg, now, nonce);
            var used := if src.window == now then src.count else 0;
            && (r.Some? <==> used < cfg.limit && |Retain(src.nonces, Unexpired(now))| < 4096)
            && (r.Some? ==> r.value == nonce && nonce in src'.nonces && src'.nonces[nonce] == SatAdd(now, cfg.ttl))
            && (forall n :: n != nonce && n in src'.nonces ==> n in src.nonces && src'.nonces[n] == src.nonces[n])
            && (forall n :: n != nonce && n in src.nonces && src.nonces[n] > now ==> n in src'.nonces)
  {
  }

  // ---------------------------------------------------------------------------------------------
  // The object
  // ---------------------------------------------------------------------------------------------

  class InMemoryServerNonceSource {
    const cfg: Config
    var nonces: map<string, nat>
    var issuanceWindow: nat
    var issuanceCount: nat

    ghost function State(): Source
      reads this
    {
      Source(nonces, issuanceWindow, issuanceCount)
    }

    constructor (c: Config)
      ensures cfg == c && State() == Fresh()
    {
      cfg := c;
      nonces := map[];
      issuanceWindow := 0;
      issuanceCount := 0;
    }

    /** Mint `minted`, unless the second's quota or the capacity is exhausted. */
    method GenerateNonce(now: nat, minted: string) returns (r: Option<string>)
      modifies this
      ensures (State(), r) == Generate(old(State()), cfg, now, minted)
    {
      if issuanceWindow != now {
        issuanceWindow := now;
        issuanceCount := 0;
      }
      if issuanceCount >= cfg.limit {
        return None;
      }
      issuanceCount := issuanceCount + 1;

      var exp := SatAdd(now, cfg.ttl);
      if |nonces| > NONCE_PRUNE_THRESHOLD {
        nonces := Retain(nonces, Unexpired(now));
      }
      if |nonces| >= NONCE_CACHE_CAPACITY {
        return None;
      }
      nonces := nonces[minted := exp];
      return Some(minted);
    }

    /** Accept a stored unexpired nonce; in single-use mode consume it. */
    method VerifyNonce(nonce: string, now: nat) returns (ok: bool)
      modifies this
      ensures (State(), ok) == Present(old(State()), cfg, nonce, now)
    {
      var trimmed := Trim(nonce);
      if trimmed in nonces && nonces[trimmed] > now {
        if cfg.singleUse {
          nonces := nonces - {trimmed};
        }
        return true;
      }
      return false;
    }

    method PruneExpired(now: nat)
      modifies this
      ensures State() == Sweep(old(State()), now)
    {
      nonces := Retain(nonces, Unexpired(now));
    }
  }
}
