/**
 Which requests the middleware lets through to the inner service, and that it lets a (thumbprint, jti) pair
 through once while its replay entry lasts, whatever else is served.
 */
module Forwarding {
  import opened Text
  import opened Clock
  import opened Shards
  import R = ReplayCache
  import W = ProofWindow
  import N = ServerNonces
  import opened Service

  /** An answer the middleware never gives of its own. */
  const NOT_FOUND := Response(404, [], None, false)

  /** The request reaches the inner service: the answer that comes back is the inner one. */
  predicate GetsInner(s: Server, setup: Setup, req: Request, m: Moment)
    requires Shaped(s)
  {
    Serve(s, setup, req, m.(inner := NOT_FOUND)).1 == NOT_FOUND
  }

  /** No nonce is asked for, or the proof carries a stored unexpired one. */
  predicate NonceHolds(s: Server, setup: Setup, p: SignedProof, now: nat) {
    || setup.nonces.None?
    || (p.nonce.Some? && Trim(p.nonce.value) in s.source.nonces && s.source.nonces[Trim(p.nonce.value)] > now)
  }

  /** Proof, nonce and token hold. */
  predicate Vouched(s: Server, setup: Setup, req: Request, m: Moment) {
    && Presents(req) && m.tokenOk
    && var p := req.proof.signed;
       p.sound && W.InWindow(setup.window, p.claims, m.now) && NonceHolds(s, setup, p, m.now)
  }

  function PairOf(req: Request): string
    requires req.proof.Carried?
  {
    R.Key(req.proof.signed.claims.jkt, req.proof.signed.claims.jti)
  }

  ghost predicate CacheOk(s: Server, setup: Setup) { Shaped(s) && (setup.recording ==> R.Valid(s.cache, setup.hash)) }

  lemma NonceHoldsExactly(s: Server, setup: Setup, p: SignedProof, now: nat)
    ensures NonceCheck(s, setup, p, now).1 <==> NonceHolds(s, setup, p, now)
    ensures NonceCheck(s, setup, p, now).0.cache == s.cache
  {
  }

  lemma VouchedQualifies(s: Server, setup: Setup, req: Request, m: Moment)
    ensures Vouched(s, setup, req, m) <==> Qualifies(s, setup, req, m)
  {
    if req.proof.Carried? {
      NonceHoldsExactly(s, setup, req.proof.signed, m.now);
      W.UntimelyExactly(setup.window, req.proof.signed.claims, m.now);
    }
  }

  /** What the admission of a request answers. */
  lemma AnswerExactly(s: Server, setup: Setup, p: SignedProof, now: nat)
    requires CacheOk(s, setup)
    ensures var k := R.Key(p.claims.jkt, p.claims.jti);
            var (s1, answer) := Commit(s, setup, p, now);
            && (answer.ReplayDetected? <==> setup.recording && W.Holds(s.cache, setup.hash, k, now))
            && (answer.Recorded? <==>
                  setup.recording ==> !W.Holds(s.cache, setup.hash, k, now) && !W.Crowded(s.cache, setup.hash, k, now))
  {
    if setup.recording {
      var k := R.Key(p.claims.jkt, p.claims.jti);
      var i := setup.hash(k);
      R.AdmitMeaning(s.cache.shards[i], s.cache.hints[i], k, W.Expiry(setup.window, now), now);
    }
  }

  lemma PresentedIsJudged(s: Server, setup: Setup, req: Request, m: Moment)
    requires Shaped(s) && Presents(req)
    ensures Serve(s, setup, req, m) == Judge(s, setup, req.proof.signed, m)
  {
  }

  /** The middleware's own answer, and the replay cache as it was. */
  predicate OwnAnswer(s: Server, after: Server, r: Response) { (r.status == 401 || r.status == 503) && after.cache == s.cache }

  lemma UnpresentedIsRefused(s: Server, setup: Setup, req: Request, m: Moment)
    requires Shaped(s) && !Presents(req)
    ensures var (after, r) := Serve(s, setup, req, m); OwnAnswer(s, after, r)
  {
  }

  lemma UnvouchedIsJudged(s: Server, setup: Setup, p: SignedProof, m: Moment)
    requires Shaped(s) && !(ProofHolds(setup, p, m.now) && NonceCheck(s, setup, p, m.now).1 && m.tokenOk)
    ensures var (after, r) := Judge(s, setup, p, m); OwnAnswer(s, after, r)
  {
    NonceHoldsExactly(s, setup, p, m.now);
  }

  lemma UnvouchedIsRefused(s: Server, setup: Setup, req: Request, m: Moment)
    requires Shaped(s) && !Qualifies(s, setup, req, m)
    ensures var (after, r) := Serve(s, setup, req, m); OwnAnswer(s, after, r)
  {
    if Presents(req) {
      PresentedIsJudged(s, setup, req, m);
      UnvouchedIsJudged(s, setup, req.proof.signed, m);
    } else {
      UnpresentedIsRefused(s, setup, req, m);
    }
  }

  lemma VouchedIsAdmitted(s: Server, setup: Setup, req: Request, m: Moment)
    requires Shaped(s) && Qualifies(s, setup, req, m)
    ensures Serve(s, setup, req, m) == Admit(NonceCheck(s, setup, req.proof.signed, m.now).0, setup, req.proof.signed, m)
  {
  }

  /**
   A request reaches the inner service if and only if its proof, nonce and token hold and, with a replay cache,
   its pair has no unexpired entry and the pair's shard has room.
   */
  lemma GetsInnerExactly(s: Server, setup: Setup, req: Request, m: Moment)
    requires CacheOk(s, setup)
    ensures GetsInner(s, setup, req, m) <==>
            && Vouched(s, setup, req, m)
            && (setup.recording ==>
                  && !W.Holds(s.cache, setup.hash, PairOf(req), m.now)
                  && !W.Crowded(s.cache, setup.hash, PairOf(req), m.now))
  {
    var m' := m.(inner := NOT_FOUND);
    VouchedQualifies(s, setup, req, m);
    if Qualifies(s, setup, req, m) {
      var s1 := NonceCheck(s, setup, req.proof.signed, m.now).0;
      NonceHoldsExactly(s, setup, req.proof.signed, m.now);
      VouchedIsAdmitted(s, setup, req, m');
      AnswerExactly(s1, setup, req.proof.signed, m.now);
    } else {
      UnvouchedIsRefused(s, setup, req, m');
    }
  }

  /** With a nonce source, a request without a nonce never reaches the inner service. */
  lemma NoNonceNoInner(s: Server, setup: Setup, req: Request, m: Moment)
    requires CacheOk(s, setup) && setup.nonces.Some? && req.proof.Carried? && req.proof.signed.nonce.None?
    ensures !GetsInner(s, setup, req, m)
  {
    GetsInnerExactly(s, setup, req, m);
  }

  /** The source after the request's nonce, if any, was presented. */
  function SourceAfterNonce(s: Server, setup: Setup, p: SignedProof, now: nat): N.Source {
    if setup.nonces.Some? && p.nonce.Some? then N.Present(s.source, setup.nonces.value, p.nonce.value, now).0 else s.source
  }

  lemma NonceIsPresented(s: Server, setup: Setup, p: SignedProof, now: nat)
    ensures NonceCheck(s, setup, p, now).0.source == SourceAfterNonce(s, setup, p, now)
  {
  }

  /**
   A request that reaches the inner service gets its response as it is, but for a success while there is a
   nonce source: that comes with a new nonce, or is withheld with 503 exactly when none can be minted.
   */
  lemma InnerComesBack(s: Server, setup: Setup, req: Request, m: Moment)
    requires Shaped(s) && GetsInner(s, setup, req, m) && req.proof.Carried?
    ensures var r := Serve(s, setup, req, m).1;
            if IsSuccess(m.inner) && setup.nonces.Some? then
              var source := SourceAfterNonce(s, setup, req.proof.signed, m.now);
              r == if N.Generate(source, setup.nonces.value, m.now, m.minted).1.Some? then m.inner.(nonce := Some(m.minted))
                   else Response(503, [], None, false)
            else r == m.inner
  {
    var m' := m.(inner := NOT_FOUND);
    NonceIsPresented(s, setup, req.proof.signed, m.now);
    if Qualifies(s, setup, req, m) {
      VouchedIsAdmitted(s, setup, req, m);
      VouchedIsAdmitted(s, setup, req, m');
    } else {
      UnvouchedIsRefused(s, setup, req, m');
    }
  }

  // ---------------------------------------------------------------------------------------------
  // Refusals
  // ---------------------------------------------------------------------------------------------

  /** The scheme before the first blank decides, in any case; without a blank there is none. */
  lemma SchemeExactly(scheme: string, credentials: string)
    requires ' ' !in scheme
    ensures HasDpopScheme(scheme + [' '] + credentials) <==> EqIgnoreCase(scheme, "DPoP")
    ensures !HasDpopScheme(scheme)
  {
    FindPrefix(scheme, ' ', credentials);
    assert (scheme + [' '] + credentials)[..|scheme|] == scheme;
  }

  /**
   A request without a DPoP token, with an unreadable proof or without a target is refused for that, is given
   no nonce and leaves the server as it was: such traffic cannot use up nonces.
   */
  lemma RefusedUntouched(s: Server, setup: Setup, req: Request, m: Moment)
    requires Shaped(s)
    ensures req.authorization.Absent? ==> Serve(s, setup, req, m) == (s, Unauthorized("missing_token", None, None))
    ensures req.authorization.Unreadable? ==> Serve(s, setup, req, m) == (s, Unauthorized("invalid_token", None, None))
    ensures req.authorization.Value? && !HasDpopScheme(req.authorization.text) ==>
              Serve(s, setup, req, m) == (s, Unauthorized("invalid_scheme", None, None))
    ensures req.authorization.Value? && HasDpopScheme(req.authorization.text)
            && (req.proof.UnreadableProof? || (req.proof.Carried? && !req.hasTarget)) ==>
              Serve(s, setup, req, m) == (s, Unauthorized("invalid_dpop_proof", None, None))
  {
  }

  /** What a refusal with `code` is where a nonce may be given, and the source it leaves. */
  predicate RefusesWithNonce(s: Server, setup: Setup, m: Moment, source: N.Source, code: string, description: Option<string>,
                             after: Server, r: Response) {
    if setup.nonces.None? then after == s && r == Unauthorized(code, description, None)
    else
      var (source', minted) := N.Generate(source, setup.nonces.value, m.now, m.minted);
      && after == s.(source := source')
      && r == if minted.Some? then Unauthorized(code, description, Some(m.minted)) else Response(503, [], None, false)
  }

  lemma NonceIsGiven(s: Server, setup: Setup, m: Moment, code: string, description: Option<string>)
    ensures var (after, r) := Refuse(s, setup, m, code, description);
            RefusesWithNonce(s, setup, m, s.source, code, description, after, r)
  {
  }

  /** A DPoP token without a proof is refused with a nonce, if there are any. */
  lemma RefusedWithoutProof(s: Server, setup: Setup, req: Request, m: Moment)
    requires Shaped(s) && LacksProof(req)
    ensures var (after, r) := Serve(s, setup, req, m);
            RefusesWithNonce(s, setup, m, s.source, "missing_dpop_proof", None, after, r)
  {
    NonceIsGiven(s, setup, m, "missing_dpop_proof", None);
  }

  /** A proof that is unsound or out of its window is refused in the same way, and its nonce is not used up. */
  lemma RefusedForProof(s: Server, setup: Setup, req: Request, m: Moment)
    requires Shaped(s) && Presents(req)
    requires !(req.proof.signed.sound && W.InWindow(setup.window, req.proof.signed.claims, m.now))
    ensures var (after, r) := Serve(s, setup, req, m);
            RefusesWithNonce(s, setup, m, s.source, "invalid_dpop_proof", None, after, r)
  {
    PresentedIsJudged(s, setup, req, m);
    W.UntimelyExactly(setup.window, req.proof.signed.claims, m.now);
    NonceIsGiven(s, setup, m, "invalid_dpop_proof", None);
  }

  lemma UnheldNonceStays(s: Server, setup: Setup, p: SignedProof, now: nat)
    requires !NonceHolds(s, setup, p, now)
    ensures NonceCheck(s, setup, p, now) == (s, false)
  {
    assert s.(source := s.source) == s;
  }

  /** A proof that holds without a usable nonce is asked for one, with another at hand; nothing is recorded. */
  lemma RefusedForNonce(s: Server, setup: Setup, req: Request, m: Moment)
    requires Shaped(s) && Presents(req) && !NonceHolds(s, setup, req.proof.signed, m.now)
    requires req.proof.signed.sound && W.InWindow(setup.window, req.proof.signed.claims, m.now)
    ensures var (after, r) := Serve(s, setup, req, m);
            RefusesWithNonce(s, setup, m, s.source, "use_dpop_nonce", Some("Resource server requires fresh DPoP nonce"), after, r)
  {
    PresentedIsJudged(s, setup, req, m);
    W.UntimelyExactly(setup.window, req.proof.signed.claims, m.now);
    UnheldNonceStays(s, setup, req.proof.signed, m.now);
    NonceIsGiven(s, setup, m, "use_dpop_nonce", Some(NONCE_REQUIRED));
  }

  /** A token that does not hold is refused after the nonce was presented, without another and without a replay entry. */
  lemma RefusedForToken(s: Server, setup: Setup, req: Request, m: Moment)
    requires Shaped(s) && Vouched(s, setup, req, m.(tokenOk := true)) && !m.tokenOk
    ensures Serve(s, setup, req, m)
            == (s.(source := SourceAfterNonce(s, setup, req.proof.signed, m.now)), Unauthorized("invalid_token", None, None))
  {
    PresentedIsJudged(s, setup, req, m);
    W.UntimelyExactly(setup.window, req.proof.signed.claims, m.now);
    HeldNonceIsPresented(s, setup, req.proof.signed, m.now);
  }

  lemma HeldNonceIsPresented(s: Server, setup: Setup, p: SignedProof, now: nat)
    requires NonceHolds(s, setup, p, now)
    ensures NonceCheck(s, setup, p, now) == (s.(source := SourceAfterNonce(s, setup, p, now)), true)
  {
    assert s.(source := s.source) == s;
  }

  /** With the shard of its pair full of unexpired entries a request that would be let through is answered 503. */
  lemma CrowdedIsUnavailable(s: Server, setup: Setup, req: Request, m: Moment)
    requires CacheOk(s, setup) && setup.recording && Vouched(s, setup, req, m)
    requires !W.Holds(s.cache, setup.hash, PairOf(req), m.now) && W.Crowded(s.cache, setup.hash, PairOf(req), m.now)
    ensures Serve(s, setup, req, m).1 == Response(503, [], None, false)
  {
    VouchedQualifies(s, setup, req, m);
    NonceHoldsExactly(s, setup, req.proof.signed, m.now);
    VouchedIsAdmitted(s, setup, req, m);
    AnswerExactly(NonceCheck(s, setup, req.proof.signed, m.now).0, setup, req.proof.signed, m.now);
  }

  /** A request whose proof, nonce and token hold but whose pair has an unexpired entry is answered as a replay. */
  lemma HeldPairIsReplay(s: Server, setup: Setup, req: Request, m: Moment)
    requires CacheOk(s, setup) && setup.recording && Vouched(s, setup, req, m)
    requires W.Holds(s.cache, setup.hash, PairOf(req), m.now)
    ensures Serve(s, setup, req, m).1 == Unauthorized("invalid_dpop_proof", Some("DPoP proof replay detected"), None)
  {
    VouchedQualifies(s, setup, req, m);
    NonceHoldsExactly(s, setup, req.proof.signed, m.now);
    VouchedIsAdmitted(s, setup, req, m);
    AnswerExactly(NonceCheck(s, setup, req.proof.signed, m.now).0, setup, req.proof.signed, m.now);
  }

  // ---------------------------------------------------------------------------------------------
  // Once
  // ---------------------------------------------------------------------------------------------

  /** The cache a request leaves: admitted to if proof, nonce and token hold, and untouched otherwise. */
  lemma CacheAfter(s: Server, setup: Setup, req: Request, m: Moment)
    requires Shaped(s)
    ensures var c := Serve(s, setup, req, m).0.cache;
            if Qualifies(s, setup, req, m) && setup.recording then
              c == R.AfterCheck(s.cache, setup.hash, PairOf(req), W.Expiry(setup.window, m.now), m.now).0
            else c == s.cache
  {
    if Qualifies(s, setup, req, m) {
      NonceHoldsExactly(s, setup, req.proof.signed, m.now);
      VouchedIsAdmitted(s, setup, req, m);
    } else {
      UnvouchedIsRefused(s, setup, req, m);
    }
  }

  lemma ServeValid(s: Server, setup: Setup, req: Request, m: Moment)
    requires CacheOk(s, setup)
    ensures CacheOk(Serve(s, setup, req, m).0, setup)
  {
    CacheAfter(s, setup, req, m);
    if Qualifies(s, setup, req, m) && setup.recording {
      R.AfterCheckValid(s.cache, setup.hash, PairOf(req), W.Expiry(setup.window, m.now), m.now);
    }
  }

  /** An entry that has not lapsed outlasts any request. */
  lemma ServeKeepsEntry(s: Server, setup: Setup, req: Request, m: Moment, k: string, exp: nat)
    requires CacheOk(s, setup) && setup.recording && W.HasEntry(s.cache, setup.hash, k, exp) && m.now < exp
    ensures W.HasEntry(Serve(s, setup, req, m).0.cache, setup.hash, k, exp)
  {
    CacheAfter(s, setup, req, m);
    if Qualifies(s, setup, req, m) {
      R.AfterCheckKeeps(s.cache, setup.hash, PairOf(req), W.Expiry(setup.window, m.now), m.now, k);
    }
  }

  lemma {:induction false} TrafficKeepsEntry(s: Server, setup: Setup, traffic: seq<(Request, Moment)>, k: string, exp: nat)
    requires CacheOk(s, setup) && setup.recording && W.HasEntry(s.cache, setup.hash, k, exp)
    requires forall x :: x in traffic ==> x.1.now < exp
    ensures var s' := ServeAll(s, setup, traffic); CacheOk(s', setup) && W.HasEntry(s'.cache, setup.hash, k, exp)
    decreases |traffic|
  {
    if traffic != [] {
      var x := traffic[0];
      assert x in traffic && forall y :: y in traffic[1..] ==> y in traffic;
      ServeValid(s, setup, x.0, x.1);
      ServeKeepsEntry(s, setup, x.0, x.1, k, exp);
      TrafficKeepsEntry(Serve(s, setup, x.0, x.1).0, setup, traffic[1..], k, exp);
    }
  }

  /** A request that reaches the inner service leaves an entry that lasts age and skew from then on. */
  lemma ForwardedIsRecorded(s: Server, setup: Setup, req: Request, m: Moment)
    requires CacheOk(s, setup) && setup.recording && GetsInner(s, setup, req, m)
    ensures var exp := SatAdd(SatAdd(m.now, setup.window.age), setup.window.skew);
            req.proof.Carried? && W.HasEntry(Serve(s, setup, req, m).0.cache, setup.hash, PairOf(req), exp)
  {
    GetsInnerExactly(s, setup, req, m);
    VouchedQualifies(s, setup, req, m);
    CacheAfter(s, setup, req, m);
    AnswerExactly(s, setup, req.proof.signed, m.now);
    R.AfterCheckRecords(s.cache, setup.hash, PairOf(req), W.Expiry(setup.window, m.now), m.now);
  }

  /**
   With a replay cache, once a request reached the inner service, no request with its pair does while all clocks
   stay below age and skew from then, whatever is served in between; where its proof, nonce and token hold, it
   is told that it is a replay.
   */
  lemma {:induction false} ForwardedOnce(s: Server, setup: Setup, req: Request, m: Moment, traffic: seq<(Request, Moment)>,
                                         again: Request, later: Moment)
    requires CacheOk(s, setup) && setup.recording && GetsInner(s, setup, req, m)
    requires req.proof.Carried? && again.proof.Carried? && PairOf(again) == PairOf(req)
    requires var exp := SatAdd(SatAdd(m.now, setup.window.age), setup.window.skew);
             later.now < exp && forall x :: x in traffic ==> x.1.now < exp
    ensures var s' := ServeAll(Serve(s, setup, req, m).0, setup, traffic);
            && !GetsInner(s', setup, again, later)
            && (Vouched(s', setup, again, later) ==>
                  Serve(s', setup, again, later).1
                  == Unauthorized("invalid_dpop_proof", Some("DPoP proof replay detected"), None))
  {
    var exp := SatAdd(SatAdd(m.now, setup.window.age), setup.window.skew);
    var s1 := Serve(s, setup, req, m).0;
    ServeValid(s, setup, req, m);
    ForwardedIsRecorded(s, setup, req, m);
    TrafficKeepsEntry(s1, setup, traffic, PairOf(req), exp);
    var s' := ServeAll(s1, setup, traffic);
    GetsInnerExactly(s', setup, again, later);
    if Vouched(s', setup, again, later) {
      HeldPairIsReplay(s', setup, again, later);
    }
  }
}
