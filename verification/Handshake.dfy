/**
 The client's `send_dpop_request` with its single nonce retry, composed with the middleware
 (sections 8 and 9 of RFC 9449). Other clients' requests may be served between the two attempts.
 */
module Handshake {
  import opened Text
  import opened Clock
  import W = ProofWindow
  import N = ServerNonces
  import opened Service
  import F = Forwarding

  /** One attempt: the proof the client signs and what the server's environment decides meanwhile. */
  datatype Attempt = Attempt(claims: W.Proof, sound: bool, hasTarget: bool, at: Moment)

  /** A call with both attempts laid out; `traffic` is what the server handles in between. */
  datatype Call = Call(
    origin: string,
    token: Option<string>,
    first: Attempt,
    traffic: seq<(Request, Moment)>,
    second: Attempt)

  datatype Outcome =
    | Returned(response: Response)
    | MissingChallengeNonce       // challenged, but no nonce known for the origin
    | NonceRetryLimitExceeded     // the retry was challenged again
    | ResponseMissingNonce        // a response without the mandatory DPoP-Nonce

  type NonceCache = map<string, string>

  function OriginKey(origin: string): string { Lower(Trim(origin)) }

  /** `extract_dpop_nonce`. */
  function ExtractNonce(header: Option<string>): Option<string> {
    if header.Some? && Trim(header.value) != "" then Some(Trim(header.value)) else None
  }

  function Remember(nonces: NonceCache, origin: string, r: Response): NonceCache {
    match ExtractNonce(r.nonce)
    case None => nonces
    case Some(n) => nonces[OriginKey(origin) := n]
  }

  function Recall(nonces: NonceCache, origin: string): Option<string> {
    if OriginKey(origin) in nonces then Some(nonces[OriginKey(origin)]) else None
  }

  function RequestOf(token: Option<string>, a: Attempt, nonce: Option<string>): Request {
    Request(if token.Some? then Value("DPoP" + [' '] + token.value) else Absent,
            Carried(SignedProof(a.claims, a.sound, nonce)), a.hasTarget)
  }

  predicate IsAuthFailure(r: Response) { r.status == 400 || r.status == 401 }

  datatype Decision = Done(outcome: Outcome) | Retry(nonce: string)

  /** What the client makes of the first response. */
  function AfterFirst(nonces: NonceCache, origin: string, r: Response): Decision {
    if IsAuthFailure(r) then
      if !IsChallenged(r) then Done(Returned(r))
      else if Recall(nonces, origin).None? then Done(MissingChallengeNonce)
      else Retry(Recall(nonces, origin).value)
    else if ExtractNonce(r.nonce).None? then Done(ResponseMissingNonce)
    else Done(Returned(r))
  }

  /** What the client makes of the response to the retry. */
  function AfterRetry(r: Response): Outcome {
    if IsAuthFailure(r) then (if IsChallenged(r) then NonceRetryLimitExceeded else Returned(r))
    else if IsSuccess(r) && ExtractNonce(r.nonce).None? then ResponseMissingNonce
    else Returned(r)
  }

  /** How a call ends, and how many requests it sent. */
  datatype Result = Result(nonces: NonceCache, server: Server, outcome: Outcome, sent: nat)

  function Send(nonces: NonceCache, s: Server, setup: Setup, c: Call): Result
    requires Shaped(s)
  {
    var (s1, r1) := Serve(s, setup, FirstRequest(nonces, c), c.first.at);
    var nonces1 := Remember(nonces, c.origin, r1);
    match AfterFirst(nonces1, c.origin, r1)
    case Done(outcome) => Result(nonces1, s1, outcome, 1)
    case Retry(n) =>
      var s2 := ServeAll(s1, setup, c.traffic);
      var (s3, r2) := Serve(s2, setup, RequestOf(c.token, c.second, Some(n)), c.second.at);
      Result(Remember(nonces1, c.origin, r2), s3, AfterRetry(r2), 2)
  }

  // ---------------------------------------------------------------------------------------------
  // The handshake
  // ---------------------------------------------------------------------------------------------

  /** A string a nonce source can mint: nothing to trim and not empty. */
  predicate Mintable(n: string) { n != "" && Trim(n) == n }

  /** The traffic falls between the attempts and presents other nonces. */
  predicate Unrelated(traffic: seq<(Request, Moment)>, n: string, from: nat, until: nat) {
    forall x :: x in traffic ==>
                  && from <= x.1.now < until
                  && (x.0.proof.Carried? && x.0.proof.signed.nonce.Some? ==> Trim(x.0.proof.signed.nonce.value) != n)
  }

  lemma {:induction false} TrafficLasts(s: Server, setup: Setup, traffic: seq<(Request, Moment)>, n: string, from: nat)
    requires Shaped(s) && setup.nonces.Some?
    requires var exp := SatAdd(from, setup.nonces.value.ttl);
             Lasts(s.source, n, exp) && Unrelated(traffic, n, from, exp)
    ensures Lasts(ServeAll(s, setup, traffic).source, n, SatAdd(from, setup.nonces.value.ttl))
    decreases |traffic|
  {
    if traffic != [] {
      var x := traffic[0];
      assert x in traffic && (forall y :: y in traffic[1..] ==> y in traffic);
      ServeLasts(s, setup, x.0, x.1, n, SatAdd(from, setup.nonces.value.ttl));
      TrafficLasts(Serve(s, setup, x.0, x.1).0, setup, traffic[1..], n, from);
    }
  }

  /** A challenged request leaves the minted nonce stored for its full lifetime. */
  lemma ChallengeStores(s: Server, setup: Setup, req: Request, m: Moment)
    requires Shaped(s) && Presents(req) && AsksForNonce(s, setup, req.proof.signed, m)
    ensures Lasts(Serve(s, setup, req, m).0.source, m.minted, SatAdd(m.now, setup.nonces.value.ttl))
  {
  }

  /** A proof with a stored unexpired nonce is not asked for another. */
  lemma LiveNonceIsNotAskedAgain(s: Server, setup: Setup, p: SignedProof, m: Moment, exp: nat)
    requires Shaped(s) && setup.nonces.Some? && p.nonce.Some? && Lasts(s.source, Trim(p.nonce.value), exp) && m.now < exp
    ensures !AsksForNonce(s, setup, p, m)
  {
  }

  lemma ClientPresents(token: string, a: Attempt, nonce: Option<string>)
    ensures HasDpopScheme(RequestOf(Some(token), a, nonce).authorization.text)
  {
    FindPrefix("DPoP", ' ', token);
    assert ("DPoP" + [' '] + token)[..4] == "DPoP";
  }

  function FirstRequest(nonces: NonceCache, c: Call): Request {
    RequestOf(c.token, c.first, Recall(nonces, c.origin))
  }

  /** The middleware rejects the nonce of the first attempt and mints another. */
  predicate FirstIsChallenged(nonces: NonceCache, s: Server, setup: Setup, c: Call) {
    var req := FirstRequest(nonces, c);
    Presents(req) && AsksForNonce(s, setup, req.proof.signed, c.first.at)
  }

  /** A retry goes out exactly after a challenge, with exactly the nonce the challenge carried. */
  lemma RetriesWithMinted(nonces: NonceCache, s: Server, setup: Setup, c: Call)
    requires Shaped(s) && Mintable(c.first.at.minted) && !IsChallenged(c.first.at.inner)
    ensures var r1 := Serve(s, setup, FirstRequest(nonces, c), c.first.at).1;
            var d := AfterFirst(Remember(nonces, c.origin, r1), c.origin, r1);
            if FirstIsChallenged(nonces, s, setup, c) then d == Retry(c.first.at.minted)
            else d.Done? && d.outcome != NonceRetryLimitExceeded && d.outcome != MissingChallengeNonce
  {
    ChallengedExactly(s, setup, FirstRequest(nonces, c), c.first.at);
  }

  // ---------------------------------------------------------------------------------------------
  // How a call ends
  // ---------------------------------------------------------------------------------------------

  function FirstResponse(nonces: NonceCache, s: Server, setup: Setup, c: Call): Response
    requires Shaped(s)
  {
    Serve(s, setup, FirstRequest(nonces, c), c.first.at).1
  }

  /** The nonce a retry would carry: that of the first response, or else the one known before. */
  function NonceForRetry(nonces: NonceCache, s: Server, setup: Setup, c: Call): Option<string>
    requires Shaped(s)
  {
    var n := ExtractNonce(FirstResponse(nonces, s, setup, c).nonce);
    if n.Some? then n else Recall(nonces, c.origin)
  }

  /** The response to a retry with nonce `n`. */
  function SecondResponse(nonces: NonceCache, s: Server, setup: Setup, c: Call, n: string): Response
    requires Shaped(s)
  {
    Serve(AtRetry(nonces, s, setup, c), setup, RequestOf(c.token, c.second, Some(n)), c.second.at).1
  }

  lemma RecallsLatest(nonces: NonceCache, origin: string, r: Response)
    ensures Recall(Remember(nonces, origin, r), origin)
            == if ExtractNonce(r.nonce).Some? then ExtractNonce(r.nonce) else Recall(nonces, origin)
  {
  }

  /**
   A call sends a second request exactly when the first was challenged and a nonce is known. Ended after one,
   it hands back the very response of the server exactly for an unchallenged 400 or 401 and for any other
   status with a nonce that is not blank; the remaining ends are a challenge without a known nonce and a
   response without one.
   */
  lemma EndsAfterOneExactly(nonces: NonceCache, s: Server, setup: Setup, c: Call)
    requires Shaped(s)
    ensures var r1, n := FirstResponse(nonces, s, setup, c), NonceForRetry(nonces, s, setup, c);
            var r := Send(nonces, s, setup, c);
            && (r.sent == if IsChallenged(r1) && n.Some? then 2 else 1)
            && (r.sent == 1 ==>
                  && (r.outcome.Returned? <==>
                        if r1.status == 400 || r1.status == 401 then !IsChallenged(r1) else ExtractNonce(r1.nonce).Some?)
                  && (r.outcome.Returned? ==> r.outcome.response == r1)
                  && (r.outcome == MissingChallengeNonce <==> IsChallenged(r1))
                  && r.outcome != NonceRetryLimitExceeded
                  && r.server == Serve(s, setup, FirstRequest(nonces, c), c.first.at).0)
  {
    RecallsLatest(nonces, c.origin, FirstResponse(nonces, s, setup, c));
  }

  /** How the response `r2` to a retry ends the call. */
  predicate EndsRetry(r2: Response, outcome: Outcome) {
    && (outcome == NonceRetryLimitExceeded <==> IsChallenged(r2))
    && (outcome == ResponseMissingNonce <==> IsSuccess(r2) && ExtractNonce(r2.nonce).None?)
    && (outcome.Returned? <==> !IsChallenged(r2) && !(IsSuccess(r2) && ExtractNonce(r2.nonce).None?))
    && (outcome.Returned? ==> outcome.response == r2)
  }

  lemma RetryEnds(r2: Response)
    ensures EndsRetry(r2, AfterRetry(r2))
  {
  }

  lemma TwoMeansRetry(nonces: NonceCache, s: Server, setup: Setup, c: Call)
    requires Shaped(s) && Send(nonces, s, setup, c).sent == 2
    ensures var r1, n := FirstResponse(nonces, s, setup, c), NonceForRetry(nonces, s, setup, c);
            n.Some? && AfterFirst(Remember(nonces, c.origin, r1), c.origin, r1) == Retry(n.value)
  {
    RecallsLatest(nonces, c.origin, FirstResponse(nonces, s, setup, c));
  }

  /** After a retry the call hands back the very response to it, unless that is a challenge or a success without a nonce. */
  lemma {:induction false} EndsAfterTwoExactly(nonces: NonceCache, s: Server, setup: Setup, c: Call)
    requires Shaped(s) && Send(nonces, s, setup, c).sent == 2
    ensures var n := NonceForRetry(nonces, s, setup, c);
            n.Some? && EndsRetry(SecondResponse(nonces, s, setup, c, n.value), Send(nonces, s, setup, c).outcome)
  {
    TwoMeansRetry(nonces, s, setup, c);
    var n := NonceForRetry(nonces, s, setup, c).value;
    SendRetries(nonces, s, setup, c, n);
    RetryEnds(SecondResponse(nonces, s, setup, c, n));
  }

  /**
   The nonce known for an origin after a response is that of the response, unless blank; origins share it
   exactly when they are the same but for case and surrounding blanks.
   */
  lemma RemembersPerOrigin(nonces: NonceCache, origin: string, other: string, r: Response)
    ensures Recall(Remember(nonces, origin, r), other)
            == if EqIgnoreCase(Trim(origin), Trim(other)) && r.nonce.Some? && Trim(r.nonce.value) != ""
               then Some(Trim(r.nonce.value)) else Recall(nonces, other)
  {
  }

  /** A 400 or 401 of the inner service is retried exactly when a header or the body asks for a nonce and one is known. */
  lemma InnerChallengeRetries(nonces: NonceCache, s: Server, setup: Setup, c: Call)
    requires Shaped(s) && F.GetsInner(s, setup, FirstRequest(nonces, c), c.first.at)
    requires c.first.at.inner.status == 400 || c.first.at.inner.status == 401
    ensures var inner := c.first.at.inner;
            var asks := inner.bodyChallenge || exists i :: 0 <= i < |inner.challenges| && Challenge.IsNonceChallenge(inner.challenges[i]);
            var known := ExtractNonce(inner.nonce).Some? || Recall(nonces, c.origin).Some?;
            && (Send(nonces, s, setup, c).sent == 2 <==> asks && known)
            && (!asks ==> Send(nonces, s, setup, c).outcome == Returned(inner))
  {
    F.InnerComesBack(s, setup, FirstRequest(nonces, c), c.first.at);
    EndsAfterOneExactly(nonces, s, setup, c);
  }

  /** Without an access token the call ends with the server's refusal of it. */
  lemma NoTokenIsRefused(nonces: NonceCache, s: Server, setup: Setup, c: Call)
    requires Shaped(s) && c.token.None?
    ensures var r := Send(nonces, s, setup, c);
            r.sent == 1 && r.outcome == Returned(Unauthorized("missing_token", None, None)) && r.server == s
  {
    F.RefusedUntouched(s, setup, FirstRequest(nonces, c), c.first.at);
    OtherCodesDoNotChallenge("missing_token", None);
    EndsAfterOneExactly(nonces, s, setup, c);
  }

  /** The first request carries the nonce known for the origin. */
  lemma FirstCarriesKnown(nonces: NonceCache, c: Call)
    ensures var req := FirstRequest(nonces, c);
            && req.proof == Carried(SignedProof(c.first.claims, c.first.sound, Recall(nonces, c.origin)))
            && (req.authorization.Value? <==> c.token.Some?) && req.hasTarget == c.first.hasTarget
            && (c.token.Some? ==> HasDpopScheme(req.authorization.text))
  {
    if c.token.Some? {
      ClientPresents(c.token.value, c.first, Recall(nonces, c.origin));
    }
  }

  /**
   A client that knows a live nonce needs one request: if proof, token and pair hold, the inner success comes
   back with the next nonce, which the client then knows and the server holds for its lifetime, so that the
   next call again needs one.
   */
  lemma {:induction false} KnownNonceSuffices(nonces: NonceCache, s: Server, setup: Setup, c: Call, n: string)
    requires F.CacheOk(s, setup) && setup.nonces.Some? && Recall(nonces, c.origin) == Some(n)
    requires Mintable(n) && Lasts(s.source, n, c.first.at.now + 1) && c.token.Some? && Mintable(c.first.at.minted)
    requires F.GetsInner(s, setup, FirstRequest(nonces, c), c.first.at) && IsSuccess(c.first.at.inner)
    requires N.Generate(N.Present(s.source, setup.nonces.value, n, c.first.at.now).0, setup.nonces.value,
                        c.first.at.now, c.first.at.minted).1.Some?
    ensures var r := Send(nonces, s, setup, c);
            && r.sent == 1 && r.outcome == Returned(c.first.at.inner.(nonce := Some(c.first.at.minted)))
            && Recall(r.nonces, c.origin) == Some(c.first.at.minted)
  {
    var req := FirstRequest(nonces, c);
    FirstCarriesKnown(nonces, c);
    F.InnerComesBack(s, setup, req, c.first.at);
    EndsAfterOneExactly(nonces, s, setup, c);
    RecallsLatest(nonces, c.origin, FirstResponse(nonces, s, setup, c));
  }

  // ---------------------------------------------------------------------------------------------
  // A first response without a nonce
  // ---------------------------------------------------------------------------------------------

  /** The inner response goes back as it came, is no authentication failure and brings no nonce. */
  predicate InnerLacksNonce(setup: Setup, inner: Response) {
    && !IsAuthFailure(inner) && (IsSuccess(inner) ==> setup.nonces.None?) && ExtractNonce(inner.nonce).None?
  }

  /**
   The first attempt ends in `ResponseMissingNonce` exactly when the middleware answered 503 of its own, or
   forwarded the request and the inner response that goes back is no 400 or 401 and has no nonce.
   */
  lemma MissingNonceExactly(nonces: NonceCache, s: Server, setup: Setup, c: Call)
    requires Shaped(s) && Mintable(c.first.at.minted)
    ensures var req, m := FirstRequest(nonces, c), c.first.at;
            var r := Serve(s, setup, req, m).1;
            AfterFirst(Remember(nonces, c.origin, r), c.origin, r) == Done(ResponseMissingNonce) <==>
            RunsDry(s, setup, req, m) || (Forwards(s, setup, req, m) && InnerLacksNonce(setup, m.inner))
  {
    ResponseOriginates(s, setup, FirstRequest(nonces, c), c.first.at);
  }

  /** A call whose first response is final ends with it. */
  lemma SendStops(nonces: NonceCache, s: Server, setup: Setup, c: Call, outcome: Outcome)
    requires Shaped(s)
    requires var r := Serve(s, setup, FirstRequest(nonces, c), c.first.at).1;
             AfterFirst(Remember(nonces, c.origin, r), c.origin, r) == Done(outcome)
    ensures Send(nonces, s, setup, c).outcome == outcome && Send(nonces, s, setup, c).sent == 1
  {
  }

  lemma NotFoundLacksNonce(setup: Setup)
    ensures InnerLacksNonce(setup, Response(404, [], None, false))
  {
  }

  /** So a 404 of the inner service does not reach the caller of an admitted first attempt. */
  lemma InnerNotFoundIsLost(nonces: NonceCache, s: Server, setup: Setup, c: Call)
    requires Shaped(s) && Mintable(c.first.at.minted) && c.first.at.inner == Response(404, [], None, false)
    requires Forwards(s, setup, FirstRequest(nonces, c), c.first.at)
    ensures Send(nonces, s, setup, c).outcome == ResponseMissingNonce && Send(nonces, s, setup, c).sent == 1
  {
    NotFoundLacksNonce(setup);
    MissingNonceExactly(nonces, s, setup, c);
    SendStops(nonces, s, setup, c, ResponseMissingNonce);
  }

  // ---------------------------------------------------------------------------------------------
  // The retry
  // ---------------------------------------------------------------------------------------------

  /** The server between the two attempts: the challenge's nonce is stored for its full lifetime. */
  lemma {:induction false} BetweenAttempts(nonces: NonceCache, s: Server, setup: Setup, c: Call)
    requires Shaped(s) && FirstIsChallenged(nonces, s, setup, c)
    requires Unrelated(c.traffic, c.first.at.minted, c.first.at.now, SatAdd(c.first.at.now, setup.nonces.value.ttl))
    ensures var s1 := Serve(s, setup, FirstRequest(nonces, c), c.first.at).0;
            Lasts(ServeAll(s1, setup, c.traffic).source, c.first.at.minted,
                  SatAdd(c.first.at.now, setup.nonces.value.ttl))
  {
    ChallengeStores(s, setup, FirstRequest(nonces, c), c.first.at);
    var s1 := Serve(s, setup, FirstRequest(nonces, c), c.first.at).0;
    TrafficLasts(s1, setup, c.traffic, c.first.at.minted, c.first.at.now);
  }

  /**
   Composed with the middleware, a call never ends in `NonceRetryLimitExceeded`: if the first attempt was
   challenged and the retry comes within the nonce lifetime, the retried nonce is live and unconsumed, in
   single-use mode too, whatever state client and server started from and whatever else is served in between.
   */
  lemma RetrySucceedsInTime(nonces: NonceCache, s: Server, setup: Setup, c: Call)
    requires Shaped(s) && setup.nonces.Some? && Mintable(c.first.at.minted)
    requires !IsChallenged(c.first.at.inner) && !IsChallenged(c.second.at.inner)
    requires var exp := SatAdd(c.first.at.now, setup.nonces.value.ttl);
             c.second.at.now < exp && Unrelated(c.traffic, c.first.at.minted, c.first.at.now, exp)
    ensures var r := Send(nonces, s, setup, c);
            r.outcome != NonceRetryLimitExceeded && r.outcome != MissingChallengeNonce && r.sent <= 2
  {
    RetriesWithMinted(nonces, s, setup, c);
    if FirstIsChallenged(nonces, s, setup, c) {
      BetweenAttempts(nonces, s, setup, c);
      var s1 := Serve(s, setup, FirstRequest(nonces, c), c.first.at).0;
      var s2 := ServeAll(s1, setup, c.traffic);
      var req2 := RequestOf(c.token, c.second, Some(c.first.at.minted));
      ChallengedExactly(s2, setup, req2, c.second.at);
      if Presents(req2) {
        LiveNonceIsNotAskedAgain(s2, setup, req2.proof.signed, c.second.at, SatAdd(c.first.at.now, setup.nonces.value.ttl));
      }
    }
  }

  /** The second attempt passes everything but the nonce check in server state `s`, and the end nonce can be minted. */
  predicate SecondIsGood(s: Server, setup: Setup, c: Call)
    requires Shaped(s) && setup.nonces.Some?
  {
    var p, m := SignedProof(c.second.claims, c.second.sound, Some(c.first.at.minted)), c.second.at;
    && c.second.hasTarget && ProofHolds(setup, p, m.now) && m.tokenOk && IsSuccess(m.inner) && Mintable(m.minted)
    && Commit(s, setup, p, m.now).1.Recorded?
    && N.Generate(NonceCheck(s, setup, p, m.now).0.source, setup.nonces.value, m.now, m.minted).1.Some?
  }

  /** A call that retries ends as the response to the retry says. */
  lemma {:induction false} SendRetries(nonces: NonceCache, s: Server, setup: Setup, c: Call, n: string)
    requires Shaped(s)
    requires var r1 := Serve(s, setup, FirstRequest(nonces, c), c.first.at).1;
             AfterFirst(Remember(nonces, c.origin, r1), c.origin, r1) == Retry(n)
    ensures var s2 := ServeAll(Serve(s, setup, FirstRequest(nonces, c), c.first.at).0, setup, c.traffic);
            var r2 := Serve(s2, setup, RequestOf(c.token, c.second, Some(n)), c.second.at).1;
            var r := Send(nonces, s, setup, c);
            && r.outcome == AfterRetry(r2) && r.sent == 2
            && (ExtractNonce(r2.nonce).Some? ==> Recall(r.nonces, c.origin) == ExtractNonce(r2.nonce))
  {
  }

  /** After a challenge the retry brings the inner service's response to the caller, with the next nonce on it. */
  lemma {:induction false} RetryDelivers(nonces: NonceCache, s: Server, setup: Setup, c: Call)
    requires Shaped(s) && Mintable(c.first.at.minted) && !IsChallenged(c.first.at.inner)
    requires FirstIsChallenged(nonces, s, setup, c)
    requires var exp := SatAdd(c.first.at.now, setup.nonces.value.ttl);
             c.second.at.now < exp && Unrelated(c.traffic, c.first.at.minted, c.first.at.now, exp)
    requires SecondIsGood(ServeAll(Serve(s, setup, FirstRequest(nonces, c), c.first.at).0, setup, c.traffic), setup, c)
    ensures var r := Send(nonces, s, setup, c);
            && r.outcome == Returned(c.second.at.inner.(nonce := Some(c.second.at.minted))) && r.sent == 2
            && Recall(r.nonces, c.origin) == Some(c.second.at.minted)
  {
    RetriesWithMinted(nonces, s, setup, c);
    SendRetries(nonces, s, setup, c, c.first.at.minted);
    BetweenAttempts(nonces, s, setup, c);
    ClientPresents(c.token.value, c.second, Some(c.first.at.minted));
    var s1 := Serve(s, setup, FirstRequest(nonces, c), c.first.at).0;
    GoodIsServed(ServeAll(s1, setup, c.traffic), setup, c);
  }

  lemma GoodIsServed(s: Server, setup: Setup, c: Call)
    requires Shaped(s) && setup.nonces.Some? && c.token.Some? && SecondIsGood(s, setup, c)
    requires Mintable(c.first.at.minted) && HasDpopScheme("DPoP" + [' '] + c.token.value)
    requires c.first.at.minted in s.source.nonces && s.source.nonces[c.first.at.minted] > c.second.at.now
    ensures Serve(s, setup, RequestOf(c.token, c.second, Some(c.first.at.minted)), c.second.at).1
            == c.second.at.inner.(nonce := Some(c.second.at.minted))
  {
  }

  /** The traffic is served between the two attempts, presents other nonces and mints other nonces. */
  predicate Between(traffic: seq<(Request, Moment)>, n: string, from: nat, to: nat) {
    forall x :: x in traffic ==>
                  && from <= x.1.now <= to && x.1.minted != n
                  && (x.0.proof.Carried? && x.0.proof.signed.nonce.Some? ==> Trim(x.0.proof.signed.nonce.value) != n)
  }

  lemma {:induction false} TrafficSettles(s: Server, setup: Setup, traffic: seq<(Request, Moment)>, n: string, exp: nat)
    requires Shaped(s) && setup.nonces.Some? && Settled(s.source, n, exp)
    requires forall x :: x in traffic ==> x.1.minted != n
    ensures Settled(ServeAll(s, setup, traffic).source, n, exp)
    decreases |traffic|
  {
    if traffic != [] {
      var x := traffic[0];
      assert x in traffic && (forall y :: y in traffic[1..] ==> y in traffic);
      ServeSettled(s, setup, x.0, x.1, n, exp);
      TrafficSettles(Serve(s, setup, x.0, x.1).0, setup, traffic[1..], n, exp);
    }
  }

  /** A proof whose nonce is stored, if at all, as lapsed is asked for another one if one can be minted. */
  lemma LapsedNonceIsAskedAgain(s: Server, setup: Setup, p: SignedProof, m: Moment, exp: nat)
    requires Shaped(s) && setup.nonces.Some? && p.nonce.Some? && Settled(s.source, Trim(p.nonce.value), exp) && exp <= m.now
    requires ProofHolds(setup, p, m.now) && N.Generate(s.source, setup.nonces.value, m.now, m.minted).1.Some?
    ensures AsksForNonce(s, setup, p, m)
  {
    LapsedIsRefused(s.source, setup.nonces.value, p.nonce.value, m.now, exp);
    RefusedIsAskedAgain(s, setup, p, m);
  }

  lemma RefusedIsAskedAgain(s: Server, setup: Setup, p: SignedProof, m: Moment)
    requires setup.nonces.Some? && p.nonce.Some? && ProofHolds(setup, p, m.now)
    requires N.Present(s.source, setup.nonces.value, p.nonce.value, m.now) == (s.source, false)
    requires N.Generate(s.source, setup.nonces.value, m.now, m.minted).1.Some?
    ensures AsksForNonce(s, setup, p, m)
  {
    assert s.(source := s.source) == s;
    assert NonceCheck(s, setup, p, m.now) == (s, false);
  }

  lemma LapsedIsRefused(source: N.Source, cfg: N.Config, nonce: string, now: nat, exp: nat)
    requires Settled(source, Trim(nonce), exp) && exp <= now
    ensures N.Present(source, cfg, nonce, now) == (source, false)
  {
  }

  /** The server the retry meets. */
  function AtRetry(nonces: NonceCache, s: Server, setup: Setup, c: Call): (r: Server)
    requires Shaped(s)
    ensures Shaped(r)
  {
    ServeAll(Serve(s, setup, FirstRequest(nonces, c), c.first.at).0, setup, c.traffic)
  }

  /** Too late: the retry is challenged again. */
  lemma LateRetryIsChallenged(nonces: NonceCache, s: Server, setup: Setup, c: Call)
    requires Shaped(s) && Mintable(c.first.at.minted) && c.second.hasTarget && !IsChallenged(c.second.at.inner)
    requires FirstIsChallenged(nonces, s, setup, c) && (forall x :: x in c.traffic ==> x.1.minted != c.first.at.minted)
    requires var p := SignedProof(c.second.claims, c.second.sound, Some(c.first.at.minted));
             && ProofHolds(setup, p, c.second.at.now) && c.second.at.now >= SatAdd(c.first.at.now, setup.nonces.value.ttl)
             && N.Generate(AtRetry(nonces, s, setup, c).source, setup.nonces.value, c.second.at.now, c.second.at.minted).1.Some?
    ensures IsChallenged(Serve(AtRetry(nonces, s, setup, c), setup,
                               RequestOf(c.token, c.second, Some(c.first.at.minted)), c.second.at).1)
  {
    var exp := SatAdd(c.first.at.now, setup.nonces.value.ttl);
    var s1, s2 := Serve(s, setup, FirstRequest(nonces, c), c.first.at).0, AtRetry(nonces, s, setup, c);
    var req2 := RequestOf(c.token, c.second, Some(c.first.at.minted));
    MintedExpiry(s, setup, FirstRequest(nonces, c), c.first.at);
    TrafficSettles(s1, setup, c.traffic, c.first.at.minted, exp);
    ClientPresents(c.token.value, c.second, Some(c.first.at.minted));
    LapsedNonceIsAskedAgain(s2, setup, req2.proof.signed, c.second.at, exp);
    ChallengedExactly(s2, setup, req2, c.second.at);
  }

  /**
   Exactly when the limit is exceeded: a challenged call whose retry carries a proof that holds, and can be
   given a nonce, is challenged again if and only if it comes too late, whatever else is served in between.
   */
  lemma RetryLimitExactly(nonces: NonceCache, s: Server, setup: Setup, c: Call)
    requires Shaped(s) && Mintable(c.first.at.minted) && c.second.hasTarget
    requires !IsChallenged(c.first.at.inner) && !IsChallenged(c.second.at.inner)
    requires FirstIsChallenged(nonces, s, setup, c)
    requires Between(c.traffic, c.first.at.minted, c.first.at.now, c.second.at.now)
    requires var p := SignedProof(c.second.claims, c.second.sound, Some(c.first.at.minted));
             && ProofHolds(setup, p, c.second.at.now)
             && N.Generate(AtRetry(nonces, s, setup, c).source, setup.nonces.value, c.second.at.now, c.second.at.minted).1.Some?
    ensures Send(nonces, s, setup, c).outcome == NonceRetryLimitExceeded
            <==> c.second.at.now >= SatAdd(c.first.at.now, setup.nonces.value.ttl)
  {
    if c.second.at.now < SatAdd(c.first.at.now, setup.nonces.value.ttl) {
      RetrySucceedsInTime(nonces, s, setup, c);
    } else {
      RetriesWithMinted(nonces, s, setup, c);
      SendRetries(nonces, s, setup, c, c.first.at.minted);
      LateRetryIsChallenged(nonces, s, setup, c);
    }
  }

  lemma GeneratedExpiry(source: N.Source, cfg: N.Config, now: nat, minted: string)
    requires N.Generate(source, cfg, now, minted).1.Some?
    ensures var nonces := N.Generate(source, cfg, now, minted).0.nonces;
            minted in nonces && nonces[minted] == SatAdd(now, cfg.ttl)
  {
  }

  lemma AskedIsRefused(s: Server, setup: Setup, req: Request, m: Moment)
    requires Shaped(s) && Presents(req) && AsksForNonce(s, setup, req.proof.signed, m)
    ensures Serve(s, setup, req, m)
            == Refuse(NonceCheck(s, setup, req.proof.signed, m.now).0, setup, m, "use_dpop_nonce", Some(NONCE_REQUIRED))
  {
  }

  lemma MintedExpiry(s: Server, setup: Setup, req: Request, m: Moment)
    requires Shaped(s) && Presents(req) && AsksForNonce(s, setup, req.proof.signed, m)
    ensures var nonces := Serve(s, setup, req, m).0.source.nonces;
            m.minted in nonces && nonces[m.minted] == SatAdd(m.now, setup.nonces.value.ttl)
  {
    AskedIsRefused(s, setup, req, m);
    GeneratedExpiry(NonceCheck(s, setup, req.proof.signed, m.now).0.source, setup.nonces.value, m.now, m.minted);
  }

  // ---------------------------------------------------------------------------------------------
  // The object
  // ---------------------------------------------------------------------------------------------

  /** The client with its origin-keyed nonce cache, talking to one service. */
  class DpopClient {
    var nonces: NonceCache

    constructor ()
      ensures nonces == map[]
    {
      nonces := map[];
    }

    method NoteNonce(origin: string, r: Response)
      modifies this
      ensures nonces == Remember(old(nonces), origin, r)
    {
      var n := ExtractNonce(r.nonce);
      if n.Some? {
        nonces := nonces[OriginKey(origin) := n.value];
      }
    }

    /** Other clients' requests, one after the other. */
    static method ServeTraffic(server: OAuthAuthService, traffic: seq<(Request, Moment)>)
      requires server.Ready()
      modifies server.cache, server.source
      ensures server.Ready()
      ensures server.State() == ServeAll(old(server.State()), server.Config(), traffic)
    {
      for i := 0 to |traffic|
        invariant server.Ready()
        invariant ServeAll(server.State(), server.Config(), traffic[i..])
               == ServeAll(old(server.State()), server.Config(), traffic)
      {
        var (req, m) := traffic[i];
        var _ := server.Call(req, m);
        assert traffic[i..][1..] == traffic[i + 1..];
      }
    }

    /** Send the first request, note its nonce, decide what to make of the response. */
    method FirstAttempt(server: OAuthAuthService, c: Call) returns (d: Decision)
      requires server.Ready()
      modifies this, server.cache, server.source
      ensures server.Ready()
      ensures var (s1, r1) := Serve(old(server.State()), server.Config(), FirstRequest(old(nonces), c), c.first.at);
              && server.State() == s1 && nonces == Remember(old(nonces), c.origin, r1)
              && d == AfterFirst(nonces, c.origin, r1)
    {
      var r := server.Call(FirstRequest(nonces, c), c.first.at);
      NoteNonce(c.origin, r);
      if !IsAuthFailure(r) {
        return Done(if ExtractNonce(r.nonce).None? then ResponseMissingNonce else Returned(r));
      }
      if !IsChallenged(r) {
        return Done(Returned(r));
      }
      var nonce := Recall(nonces, c.origin);
      if nonce.None? {
        return Done(MissingChallengeNonce);
      }
      return Retry(nonce.value);
    }

    /** Send the retry with the challenge's nonce; a second challenge is final. */
    method SecondAttempt(server: OAuthAuthService, c: Call, nonce: string) returns (outcome: Outcome)
      requires server.Ready()
      modifies this, server.cache, server.source
      ensures server.Ready()
      ensures var req := RequestOf(c.token, c.second, Some(nonce));
              var (s3, r2) := Serve(old(server.State()), server.Config(), req, c.second.at);
              && server.State() == s3 && nonces == Remember(old(nonces), c.origin, r2)
              && outcome == AfterRetry(r2)
    {
      var r := server.Call(RequestOf(c.token, c.second, Some(nonce)), c.second.at);
      NoteNonce(c.origin, r);
      if IsAuthFailure(r) {
        if IsChallenged(r) {
          return NonceRetryLimitExceeded;
        }
        return Returned(r);
      }
      if IsSuccess(r) && ExtractNonce(r.nonce).None? {
        return ResponseMissingNonce;
      }
      return Returned(r);
    }

    /** One call with at most one retry; client and server end as `Send` says. */
    method SendDpopRequest(server: OAuthAuthService, c: Call) returns (outcome: Outcome, sent: nat)
      requires server.Ready()
      modifies this, server.cache, server.source
      ensures server.Ready()
      ensures Result(nonces, server.State(), outcome, sent)
              == Send(old(nonces), old(server.State()), server.Config(), c)
    {
      var d := FirstAttempt(server, c);
      if d.Done? {
        return d.outcome, 1;
      }
      ServeTraffic(server, c.traffic);
      outcome := SecondAttempt(server, c, d.nonce);
      sent := 2;
    }
  }
}
