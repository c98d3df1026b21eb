/**
 One request through `OAuthAuthService::call`, from headers to response, over the in-memory nonce
 source and the replay cache. One clock reading per call.
 */
module Service {
  import opened Text
  import opened Clock
  import opened Shards
  import Challenge
  import R = ReplayCache
  import W = ProofWindow
  import N = ServerNonces

  /** A header: absent, not valid text, or its text. */
  datatype Header = Absent | Unreadable | Value(text: string)

  /** A DPoP proof; `sound` covers format, signature, `htm`, `htu` and `ath`. */
  datatype SignedProof = SignedProof(claims: W.Proof, sound: bool, nonce: Option<string>)

  datatype ProofHeader = NoProof | UnreadableProof | Carried(signed: SignedProof)

  /** `hasTarget`: an absolute `htu` can be derived from the request URI. */
  datatype Request = Request(authorization: Header, proof: ProofHeader, hasTarget: bool)

  /** Status, `WWW-Authenticate` values, `DPoP-Nonce`, and whether the JSON body says `use_dpop_nonce`. */
  datatype Response = Response(status: nat, challenges: seq<string>, nonce: Option<string>, bodyChallenge: bool)

  /** Without `recording` the verifier has no replay cache. */
  datatype Setup = Setup(window: W.Window, nonces: Option<N.Config>, recording: bool, hash: Hash)

  datatype Server = Server(cache: R.Cache, source: N.Source)

  /** What the environment decides during one call: clock, random nonce, token verdict, inner response. */
  datatype Moment = Moment(now: nat, minted: string, tokenOk: bool, inner: Response)

  const NONCE_REQUIRED := "Resource server requires fresh DPoP nonce"
  const REPLAY_DETECTED := "DPoP proof replay detected"

  function Unauthorized(code: string, description: Option<string>, nonce: Option<string>): Response {
    Response(401, [Challenge.Print(code, description)], nonce, false)
  }

  function Unavailable(): Response { Response(503, [], None, false) }

  predicate IsSuccess(r: Response) { 200 <= r.status < 300 }

  /** The scheme before the first blank is `DPoP`, whatever its case. */
  predicate HasDpopScheme(authorization: string) {
    match Find(authorization, ' ')
    case None => false
    case Some(i) => EqIgnoreCase(authorization[..i], "DPoP")
  }

  /** A 401 that carries a fresh nonce when a source is configured, 503 when the source is exhausted. */
  function Refuse(s: Server, setup: Setup, m: Moment, code: string, description: Option<string>): (Server, Response) {
    match setup.nonces
    case None => (s, Unauthorized(code, description, None))
    case Some(cfg) =>
      var (source, nonce) := N.Generate(s.source, cfg, m.now, m.minted);
      (s.(source := source), if nonce.Some? then Unauthorized(code, description, nonce) else Unavailable())
  }

  predicate ProofHolds(setup: Setup, p: SignedProof, now: nat) {
    p.sound && W.Temporal(setup.window, p.claims, now).Accepted?
  }

  function NonceCheck(s: Server, setup: Setup, p: SignedProof, now: nat): (Server, bool) {
    if setup.nonces.None? then (s, true)
    else if p.nonce.None? then (s, false)
    else
      var (source, ok) := N.Present(s.source, setup.nonces.value, p.nonce.value, now);
      (s.(source := source), ok)
  }

  predicate Shaped(s: Server) { W.Shaped(s.cache) }

  function Commit(s: Server, setup: Setup, p: SignedProof, now: nat): (r: (Server, R.Answer))
    requires Shaped(s)
    ensures Shaped(r.0) && r.0.source == s.source
  {
    if !setup.recording then (s, R.Recorded)
    else
      var key := R.Key(p.claims.jkt, p.claims.jti);
      var (cache, answer) := R.AfterCheck(s.cache, setup.hash, key, W.Expiry(setup.window, now), now);
      (s.(cache := cache), answer)
  }

  /** The inner response, with a fresh nonce attached to a success. */
  function Attach(s: Server, setup: Setup, m: Moment): (Server, Response) {
    if !IsSuccess(m.inner) || setup.nonces.None? then (s, m.inner)
    else
      var (source, nonce) := N.Generate(s.source, setup.nonces.value, m.now, m.minted);
      (s.(source := source), if nonce.Some? then m.inner.(nonce := nonce) else Unavailable())
  }

  /** From the token check on. */
  function Admit(s: Server, setup: Setup, p: SignedProof, m: Moment): (r: (Server, Response))
    requires Shaped(s)
    ensures Shaped(r.0)
  {
    if !m.tokenOk then (s, Unauthorized("invalid_token", None, None))
    else
      var (s1, answer) := Commit(s, setup, p, m.now);
      match answer
      case ReplayDetected => (s1, Unauthorized("invalid_dpop_proof", Some(REPLAY_DETECTED), None))
      case Saturated => (s1, Unavailable())
      case Recorded => Attach(s1, setup, m)
  }

  /** From proof verification on. */
  function Judge(s: Server, setup: Setup, p: SignedProof, m: Moment): (r: (Server, Response))
    requires Shaped(s)
    ensures Shaped(r.0)
  {
    if !ProofHolds(setup, p, m.now) then Refuse(s, setup, m, "invalid_dpop_proof", None)
    else
      var (s1, ok) := NonceCheck(s, setup, p, m.now);
      if !ok then Refuse(s1, setup, m, "use_dpop_nonce", Some(NONCE_REQUIRED)) else Admit(s1, setup, p, m)
  }

  function Serve(s: Server, setup: Setup, req: Request, m: Moment): (r: (Server, Response))
    requires Shaped(s)
    ensures Shaped(r.0)
  {
    match req.authorization
    case Absent => (s, Unauthorized("missing_token", None, None))
    case Unreadable => (s, Unauthorized("invalid_token", None, None))
    case Value(text) =>
      if !HasDpopScheme(text) then (s, Unauthorized("invalid_scheme", None, None))
      else
        match req.proof
        case UnreadableProof => (s, Unauthorized("invalid_dpop_proof", None, None))
        case NoProof =>
          if Trim(text) == "" then (s, Unauthorized("missing_dpop_proof", None, None))
          else Refuse(s, setup, m, "missing_dpop_proof", None)
        case Carried(p) =>
          if !req.hasTarget then (s, Unauthorized("invalid_dpop_proof", None, None))
          else Judge(s, setup, p, m)
  }

  /** The server after serving a list of requests in order. */
  function ServeAll(s: Server, setup: Setup, reqs: seq<(Request, Moment)>): (r: Server)
    requires Shaped(s)
    ensures Shaped(r)
    decreases |reqs|
  {
    if reqs == [] then s else ServeAll(Serve(s, setup, reqs[0].0, reqs[0].1).0, setup, reqs[1..])
  }

  // ---------------------------------------------------------------------------------------------
  // Which responses ask for a nonce
  // ---------------------------------------------------------------------------------------------

  /** The client takes the response for a nonce challenge. */
  predicate IsChallenged(r: Response) {
    (r.status == 400 || r.status == 401) && (Challenge.AnyNonceChallenge(r.challenges) || r.bodyChallenge)
  }

  lemma OtherCodesDoNotChallenge(code: string, nonce: Option<string>)
    requires code in ["missing_token", "invalid_token", "invalid_scheme", "missing_dpop_proof", "invalid_dpop_proof"]
    ensures !IsChallenged(Unauthorized(code, None, nonce))
  {
    Challenge.CodeDecides(code, None);
    AnyOfOne(Challenge.Print(code, None), Challenge.IsNonceChallenge);
    assert Lower(code)[0] != 'u' && Lower("use_dpop_nonce")[0] == 'u';
  }

  lemma ReplayDoesNotChallenge()
    ensures !IsChallenged(Unauthorized("invalid_dpop_proof", Some(REPLAY_DETECTED), None))
  {
    Challenge.CodeDecides("invalid_dpop_proof", Some(REPLAY_DETECTED));
    AnyOfOne(Challenge.Print("invalid_dpop_proof", Some(REPLAY_DETECTED)), Challenge.IsNonceChallenge);
    assert Lower("invalid_dpop_proof")[0] == 'i' && Lower("use_dpop_nonce")[0] == 'u';
  }

  lemma NonceCodeChallenges(nonce: Option<string>)
    ensures IsChallenged(Unauthorized("use_dpop_nonce", Some(NONCE_REQUIRED), nonce))
  {
    Challenge.CodeDecides("use_dpop_nonce", Some(NONCE_REQUIRED));
    AnyOfOne(Challenge.Print("use_dpop_nonce", Some(NONCE_REQUIRED)), Challenge.IsNonceChallenge);
  }

  /** The proof holds but the nonce is missing or not accepted, and a fresh one can be minted. */
  predicate AsksForNonce(s: Server, setup: Setup, p: SignedProof, m: Moment) {
    && setup.nonces.Some? && ProofHolds(setup, p, m.now)
    && var (s1, ok) := NonceCheck(s, setup, p, m.now);
       !ok && N.Generate(s1.source, setup.nonces.value, m.now, m.minted).1.Some?
  }

  lemma RefuseResponses(s: Server, setup: Setup, m: Moment, code: string, description: Option<string>)
    ensures var r := Refuse(s, setup, m, code, description).1; r == Unauthorized(code, description, r.nonce) || r == Unavailable()
  {
  }

  lemma RefuseChallenges(s: Server, setup: Setup, m: Moment, code: string, description: Option<string>)
    requires (code == "missing_dpop_proof" || code == "invalid_dpop_proof") && description.None?
    ensures !IsChallenged(Refuse(s, setup, m, code, description).1)
  {
    RefuseResponses(s, setup, m, code, description);
    OtherCodesDoNotChallenge(code, Refuse(s, setup, m, code, description).1.nonce);
  }

  lemma AdmitDoesNotChallenge(s: Server, setup: Setup, p: SignedProof, m: Moment)
    requires Shaped(s) && !IsChallenged(m.inner)
    ensures !IsChallenged(Admit(s, setup, p, m).1)
  {
    OtherCodesDoNotChallenge("invalid_token", None);
    ReplayDoesNotChallenge();
  }

  lemma RejectedNonceChallenges(s: Server, setup: Setup, m: Moment)
    requires setup.nonces.Some?
    ensures var r := Refuse(s, setup, m, "use_dpop_nonce", Some(NONCE_REQUIRED)).1;
            if N.Generate(s.source, setup.nonces.value, m.now, m.minted).1.Some? then
              IsChallenged(r) && r == Unauthorized("use_dpop_nonce", Some(NONCE_REQUIRED), Some(m.minted))
            else !IsChallenged(r)
  {
    NonceCodeChallenges(Some(m.minted));
  }

  lemma JudgeChallenges(s: Server, setup: Setup, p: SignedProof, m: Moment)
    requires Shaped(s) && !IsChallenged(m.inner)
    ensures IsChallenged(Judge(s, setup, p, m).1) <==> AsksForNonce(s, setup, p, m)
    ensures AsksForNonce(s, setup, p, m) ==>
              Judge(s, setup, p, m).1 == Unauthorized("use_dpop_nonce", Some(NONCE_REQUIRED), Some(m.minted))
  {
    if !ProofHolds(setup, p, m.now) {
      RefuseChallenges(s, setup, m, "invalid_dpop_proof", None);
    } else {
      var (s1, ok) := NonceCheck(s, setup, p, m.now);
      if ok {
        AdmitDoesNotChallenge(s1, setup, p, m);
      } else {
        RejectedNonceChallenges(s1, setup, m);
      }
    }
  }

  /** The request gets as far as proof verification. */
  predicate Presents(req: Request) {
    req.authorization.Value? && HasDpopScheme(req.authorization.text) && req.proof.Carried? && req.hasTarget
  }

  /**
   The client sees a challenge exactly when the middleware rejected the nonce of a proof that holds and
   minted a new one; the challenge then carries that nonce.
   */
  lemma ChallengedExactly(s: Server, setup: Setup, req: Request, m: Moment)
    requires Shaped(s) && !IsChallenged(m.inner)
    ensures var r := Serve(s, setup, req, m).1;
            && (IsChallenged(r) <==> Presents(req) && AsksForNonce(s, setup, req.proof.signed, m))
            && (IsChallenged(r) ==> r == Unauthorized("use_dpop_nonce", Some(NONCE_REQUIRED), Some(m.minted)))
  {
    if Presents(req) {
      JudgeChallenges(s, setup, req.proof.signed, m);
    } else if req.authorization.Value? && HasDpopScheme(req.authorization.text) && req.proof.NoProof? {
      OtherCodesDoNotChallenge("missing_dpop_proof", None);
      RefuseChallenges(s, setup, m, "missing_dpop_proof", None);
    } else {
      OtherCodesDoNotChallenge("missing_token", None);
      OtherCodesDoNotChallenge("invalid_token", None);
      OtherCodesDoNotChallenge("invalid_scheme", None);
      OtherCodesDoNotChallenge("invalid_dpop_proof", None);
    }
  }

  // ---------------------------------------------------------------------------------------------
  // Where a response comes from
  // ---------------------------------------------------------------------------------------------

  /** The nonce source is on and mints nothing at this moment. */
  predicate SourceIsDry(s: Server, setup: Setup, m: Moment) {
    setup.nonces.Some? && N.Generate(s.source, setup.nonces.value, m.now, m.minted).1.None?
  }

  /** The request asks for a nonce without bringing a proof. */
  predicate LacksProof(req: Request) {
    && req.authorization.Value? && HasDpopScheme(req.authorization.text) && req.proof.NoProof?
    && Trim(req.authorization.text) != ""
  }

  /** Proof, nonce and token hold. */
  predicate Qualifies(s: Server, setup: Setup, req: Request, m: Moment) {
    Presents(req) && ProofHolds(setup, req.proof.signed, m.now)
    && NonceCheck(s, setup, req.proof.signed, m.now).1 && m.tokenOk
  }

  /** The request is forwarded to the inner service. */
  predicate Forwards(s: Server, setup: Setup, req: Request, m: Moment)
    requires Shaped(s)
  {
    Qualifies(s, setup, req, m) && Committed(s, setup, req.proof.signed, m).1.Recorded?
  }

  function Committed(s: Server, setup: Setup, p: SignedProof, m: Moment): (r: (Server, R.Answer))
    requires Shaped(s)
    ensures Shaped(r.0)
  {
    Commit(NonceCheck(s, setup, p, m.now).0, setup, p, m.now)
  }

  /** The middleware answers 503 of its own: the replay cache is full, or the source dry where a nonce is due. */
  predicate RunsDry(s: Server, setup: Setup, req: Request, m: Moment)
    requires Shaped(s)
  {
    || (LacksProof(req) && SourceIsDry(s, setup, m))
    || (Presents(req) && JudgedDry(s, setup, req.proof.signed, m))
  }

  predicate JudgedDry(s: Server, setup: Setup, p: SignedProof, m: Moment)
    requires Shaped(s)
  {
    if !ProofHolds(setup, p, m.now) then SourceIsDry(s, setup, m)
    else
      var (s1, ok) := NonceCheck(s, setup, p, m.now);
      if !ok then SourceIsDry(s1, setup, m)
      else
        var (s2, answer) := Committed(s, setup, p, m);
        m.tokenOk && (answer.Saturated? || (answer.Recorded? && IsSuccess(m.inner) && SourceIsDry(s2, setup, m)))
  }

  /** What a response is, by where it comes from. */
  ghost predicate Originates(s: Server, setup: Setup, req: Request, m: Moment, r: Response)
    requires Shaped(s)
  {
    if RunsDry(s, setup, req, m) then r == Unavailable()
    else if Forwards(s, setup, req, m) then
      r == if IsSuccess(m.inner) && setup.nonces.Some? then m.inner.(nonce := Some(m.minted)) else m.inner
    else r.status == 401
  }

  lemma JudgeOriginates(s: Server, setup: Setup, req: Request, m: Moment)
    requires Shaped(s) && Presents(req)
    ensures Originates(s, setup, req, m, Judge(s, setup, req.proof.signed, m).1)
  {
  }

  /** Every response is the middleware's 503 exactly when it runs dry, else the inner one exactly when forwarded, else a 401. */
  lemma ResponseOriginates(s: Server, setup: Setup, req: Request, m: Moment)
    requires Shaped(s)
    ensures Originates(s, setup, req, m, Serve(s, setup, req, m).1)
  {
    if Presents(req) {
      JudgeOriginates(s, setup, req, m);
    }
  }

  // ---------------------------------------------------------------------------------------------
  // A nonce nobody else presents stays good
  // ---------------------------------------------------------------------------------------------

  /** The nonce is stored and lasts at least until `exp`. */
  predicate Lasts(source: N.Source, n: string, exp: nat) { n in source.nonces && source.nonces[n] >= exp }

  lemma GenerateLasts(source: N.Source, cfg: N.Config, now: nat, minted: string, n: string, exp: nat)
    requires Lasts(source, n, exp) && now < exp <= SatAdd(now, cfg.ttl)
    ensures Lasts(N.Generate(source, cfg, now, minted).0, n, exp)
  {
  }

  lemma PresentLasts(source: N.Source, cfg: N.Config, other: string, now: nat, n: string, exp: nat)
    requires Lasts(source, n, exp) && Trim(other) != n
    ensures Lasts(N.Present(source, cfg, other, now).0, n, exp)
  {
  }

  lemma NonceCheckLasts(s: Server, setup: Setup, p: SignedProof, now: nat, n: string, exp: nat)
    requires Lasts(s.source, n, exp) && (p.nonce.Some? ==> Trim(p.nonce.value) != n)
    ensures Lasts(NonceCheck(s, setup, p, now).0.source, n, exp)
  {
    if setup.nonces.Some? && p.nonce.Some? {
      PresentLasts(s.source, setup.nonces.value, p.nonce.value, now, n, exp);
    }
  }

  lemma RefuseLasts(s: Server, setup: Setup, m: Moment, code: string, description: Option<string>, n: string, exp: nat)
    requires setup.nonces.Some? && Lasts(s.source, n, exp) && m.now < exp <= SatAdd(m.now, setup.nonces.value.ttl)
    ensures Lasts(Refuse(s, setup, m, code, description).0.source, n, exp)
  {
    GenerateLasts(s.source, setup.nonces.value, m.now, m.minted, n, exp);
  }

  lemma AdmitLasts(s: Server, setup: Setup, p: SignedProof, m: Moment, n: string, exp: nat)
    requires Shaped(s) && setup.nonces.Some?
    requires Lasts(s.source, n, exp) && m.now < exp <= SatAdd(m.now, setup.nonces.value.ttl)
    ensures Lasts(Admit(s, setup, p, m).0.source, n, exp)
  {
    GenerateLasts(s.source, setup.nonces.value, m.now, m.minted, n, exp);
  }

  lemma JudgeLasts(s: Server, setup: Setup, p: SignedProof, m: Moment, n: string, exp: nat)
    requires Shaped(s) && setup.nonces.Some?
    requires Lasts(s.source, n, exp) && m.now < exp <= SatAdd(m.now, setup.nonces.value.ttl)
    requires p.nonce.Some? ==> Trim(p.nonce.value) != n
    ensures Lasts(Judge(s, setup, p, m).0.source, n, exp)
  {
    if !ProofHolds(setup, p, m.now) {
      RefuseLasts(s, setup, m, "invalid_dpop_proof", None, n, exp);
    } else {
      NonceCheckLasts(s, setup, p, m.now, n, exp);
      var (s1, ok) := NonceCheck(s, setup, p, m.now);
      if ok {
        AdmitLasts(s1, setup, p, m, n, exp);
      } else {
        RefuseLasts(s1, setup, m, "use_dpop_nonce", Some(NONCE_REQUIRED), n, exp);
      }
    }
  }

  /** Serving a request that does not present the nonce keeps it, as long as it has not expired. */
  lemma ServeLasts(s: Server, setup: Setup, req: Request, m: Moment, n: string, exp: nat)
    requires Shaped(s) && setup.nonces.Some? && Lasts(s.source, n, exp)
    requires m.now < exp <= SatAdd(m.now, setup.nonces.value.ttl)
    requires req.proof.Carried? && req.proof.signed.nonce.Some? ==> Trim(req.proof.signed.nonce.value) != n
    ensures Lasts(Serve(s, setup, req, m).0.source, n, exp)
  {
    RefuseLasts(s, setup, m, "missing_dpop_proof", None, n, exp);
    if Presents(req) {
      JudgeLasts(s, setup, req.proof.signed, m, n, exp);
    }
  }

  /** If the nonce is stored at all, it is with that expiry. */
  predicate Settled(source: N.Source, n: string, exp: nat) { n in source.nonces ==> source.nonces[n] == exp }

  lemma GenerateSettled(source: N.Source, cfg: N.Config, now: nat, minted: string, n: string, exp: nat)
    requires Settled(source, n, exp) && minted != n
    ensures Settled(N.Generate(source, cfg, now, minted).0, n, exp)
  {
  }

  lemma NonceCheckSettled(s: Server, setup: Setup, p: SignedProof, now: nat, n: string, exp: nat)
    requires Settled(s.source, n, exp)
    ensures Settled(NonceCheck(s, setup, p, now).0.source, n, exp)
  {
  }

  lemma AdmitSettled(s: Server, setup: Setup, p: SignedProof, m: Moment, n: string, exp: nat)
    requires Shaped(s) && setup.nonces.Some? && Settled(s.source, n, exp) && m.minted != n
    ensures Settled(Admit(s, setup, p, m).0.source, n, exp)
  {
    GenerateSettled(s.source, setup.nonces.value, m.now, m.minted, n, exp);
  }

  lemma RefuseSettled(s: Server, setup: Setup, m: Moment, code: string, description: Option<string>, n: string, exp: nat)
    requires setup.nonces.Some? && Settled(s.source, n, exp) && m.minted != n
    ensures Settled(Refuse(s, setup, m, code, description).0.source, n, exp)
  {
    GenerateSettled(s.source, setup.nonces.value, m.now, m.minted, n, exp);
  }

  lemma JudgeSettled(s: Server, setup: Setup, p: SignedProof, m: Moment, n: string, exp: nat)
    requires Shaped(s) && setup.nonces.Some? && Settled(s.source, n, exp) && m.minted != n
    ensures Settled(Judge(s, setup, p, m).0.source, n, exp)
  {
    if !ProofHolds(setup, p, m.now) {
      RefuseSettled(s, setup, m, "invalid_dpop_proof", None, n, exp);
    } else {
      NonceCheckSettled(s, setup, p, m.now, n, exp);
      var (s1, ok) := NonceCheck(s, setup, p, m.now);
      if ok {
        AdmitSettled(s1, setup, p, m, n, exp);
      } else {
        RefuseSettled(s1, setup, m, "use_dpop_nonce", Some(NONCE_REQUIRED), n, exp);
      }
    }
  }

  /** Serving a request that mints another nonce never gives this one a new expiry. */
  lemma ServeSettled(s: Server, setup: Setup, req: Request, m: Moment, n: string, exp: nat)
    requires Shaped(s) && setup.nonces.Some? && Settled(s.source, n, exp) && m.minted != n
    ensures Settled(Serve(s, setup, req, m).0.source, n, exp)
  {
    RefuseSettled(s, setup, m, "missing_dpop_proof", None, n, exp);
    if Presents(req) {
      JudgeSettled(s, setup, req.proof.signed, m, n, exp);
    }
  }

  // ---------------------------------------------------------------------------------------------
  // The object
  // ---------------------------------------------------------------------------------------------

  /** The Tower service over its optional replay cache and optional nonce source. */
  class OAuthAuthService {
    const window: W.Window
    const cache: R.DPoPReplayCache?
    const source: N.InMemoryServerNonceSource?

    constructor (w: W.Window, c: R.DPoPReplayCache?, n: N.InMemoryServerNonceSource?)
      ensures window == w && cache == c && source == n
    {
      window := w;
      cache := c;
      source := n;
    }

    ghost function Config(): Setup {
      Setup(window, if source == null then None else Some(source.cfg), cache != null,
            if cache == null then (_ => 0) else cache.hash)
    }

    ghost predicate Ready()
      reads cache
    {
      cache != null ==> cache.Ok()
    }

    ghost function State(): Server
      reads cache, source
    {
      Server(if cache == null then R.Empty() else cache.State(), if source == null then N.Fresh() else source.State())
    }

    /** The 401 of a request that may be given a fresh nonce. */
    method RefuseWithNonce(m: Moment, code: string, description: Option<string>) returns (r: Response)
      modifies source
      ensures (State(), r) == Refuse(old(State()), Config(), m, code, description)
      ensures State().cache == old(State().cache)
    {
      if source == null {
        return Unauthorized(code, description, None);
      }
      var nonce := source.GenerateNonce(m.now, m.minted);
      return if nonce.Some? then Unauthorized(code, description, nonce) else Unavailable();
    }

    /** Token check, commit, forward, attach a nonce to a success. */
    method AdmitAndForward(p: SignedProof, m: Moment) returns (r: Response)
      requires Ready()
      modifies cache, source
      ensures Ready()
      ensures (State(), r) == Admit(old(State()), Config(), p, m)
    {
      if !m.tokenOk {
        return Unauthorized("invalid_token", None, None);
      }
      if cache != null {
        var answer := cache.CheckAndRecord(p.claims.jkt, p.claims.jti, W.Expiry(window, m.now), m.now);
        if answer.ReplayDetected? {
          return Unauthorized("invalid_dpop_proof", Some(REPLAY_DETECTED), None);
        }
        if answer.Saturated? {
          return Unavailable();
        }
      }
      r := m.inner;
      if IsSuccess(r) && source != null {
        var nonce := source.GenerateNonce(m.now, m.minted);
        r := if nonce.Some? then r.(nonce := nonce) else Unavailable();
      }
    }

    /** The whole call: whatever the request, the response and both stores are those of `Serve`. */
    method Call(req: Request, m: Moment) returns (r: Response)
      requires Ready()
      modifies cache, source
      ensures Ready()
      ensures (State(), r) == Serve(old(State()), Config(), req, m)
    {
      if req.authorization.Absent? {
        return Unauthorized("missing_token", None, None);
      }
      if req.authorization.Unreadable? {
        return Unauthorized("invalid_token", None, None);
      }
      if !HasDpopScheme(req.authorization.text) {
        return Unauthorized("invalid_scheme", None, None);
      }
      if req.proof.UnreadableProof? {
        return Unauthorized("invalid_dpop_proof", None, None);
      }
      if req.proof.NoProof? {
        if Trim(req.authorization.text) == "" {
          return Unauthorized("missing_dpop_proof", None, None);
        }
        r := RefuseWithNonce(m, "missing_dpop_proof", None);
        return;
      }
      if !req.hasTarget {
        return Unauthorized("invalid_dpop_proof", None, None);
      }
      var p := req.proof.signed;
      if !p.sound || !W.Temporal(window, p.claims, m.now).Accepted? {
        r := RefuseWithNonce(m, "invalid_dpop_proof", None);
        return;
      }
      if source != null {
        var valid := false;
        if p.nonce.Some? {
          valid := source.VerifyNonce(p.nonce.value, m.now);
        }
        if !valid {
          r := RefuseWithNonce(m, "use_dpop_nonce", Some(NONCE_REQUIRED));
          return;
        }
      }
      r := AdmitAndForward(p, m);
    }
  }
}
