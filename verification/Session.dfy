/**
 The client's session (`OAuthSession`): how `exchange_code` builds it and what any sequence of refreshes,
 with whatever token responses, may do to it. Clock readings are seconds; the DPoP key is its thumbprint.
 */
module Session {
  import opened Text

  const TIME_MAX: nat := 0x7FFF_FFFF_FFFF_FFFF
  const ATPROTO: string := "atproto"

  datatype Session = Session(
    sub: string, access: string, refresh: Option<string>, tokenType: string, scope: Option<string>,
    expiresAt: Option<nat>, key: string, pds: Option<string>, issuer: Option<string>, endpoint: Option<string>,
    created: nat)

  /** The stored authorization request an exchange works from. */
  datatype Pending = Pending(did: Option<string>, key: string, pds: string, issuer: string, endpoint: string)

  datatype TokenResponse = TokenResponse(
    sub: string, access: string, refresh: Option<string>, tokenType: string, scope: Option<string>,
    expiresIn: Option<nat>)

  /** What the token endpoint came back with, if anything usable. */
  datatype Reply = Failed | Token(resp: TokenResponse)

  datatype Error =
    | Http | InvalidTokenType | MissingDid | EmptySub | SubMismatch | MissingScope | MissingAtprotoScope
    | ScopeExpansion | MissingRefreshToken | MissingField | ExpiryOverflow

  datatype Outcome = Ok(session: Session) | Err(error: Error)

  predicate IsDpop(tokenType: string) { EqIgnoreCase(tokenType, "DPoP") }

  function WordSet(s: string): set<string> { set w | w in Words(s) }

  /** The scopes a session holds. */
  function Scopes(scope: Option<string>): set<string> { if scope.Some? then WordSet(scope.value) else {} }

  // ---------------------------------------------------------------------------------------------
  // Code exchange
  // ---------------------------------------------------------------------------------------------

  function CheckedExpiry(now: nat, expiresIn: Option<nat>): Option<nat> {
    if expiresIn.Some? && now + expiresIn.value <= TIME_MAX then Some(now + expiresIn.value) else None
  }

  /** `OAuthSession::new`. */
  function NewSession(r: TokenResponse, p: Pending, now: nat): Outcome {
    if !IsDpop(r.tokenType) then Err(InvalidTokenType)
    else if r.expiresIn.Some? && CheckedExpiry(now, r.expiresIn).None? then Err(ExpiryOverflow)
    else
      Ok(Session(r.sub, r.access, r.refresh, r.tokenType, r.scope, CheckedExpiry(now, r.expiresIn), p.key,
                 Some(p.pds), Some(p.issuer), Some(p.endpoint), now))
  }

  function ExchangeCode(p: Pending, reply: Reply, now: nat): Outcome {
    if reply.Failed? then Err(Http)
    else
      var r := reply.resp;
      if !IsDpop(r.tokenType) then Err(InvalidTokenType)
      else if Trim(r.sub) == "" then Err(MissingDid)
      else if p.did.Some? && r.sub != p.did.value then Err(SubMismatch)
      else if r.scope.None? then Err(MissingScope)
      else if ATPROTO !in Words(r.scope.value) then Err(MissingAtprotoScope)
      else NewSession(r, p, now)
  }

  /** What a session built by an exchange has, and refreshes keep. */
  predicate WellFormed(s: Session) {
    IsDpop(s.tokenType) && s.sub != "" && ATPROTO in Scopes(s.scope)
  }

  /** An exchange succeeds exactly on a DPoP response for the expected subject that grants `atproto` and can expire. */
  lemma ExchangedExactly(p: Pending, reply: Reply, now: nat)
    ensures ExchangeCode(p, reply, now).Ok? <==>
            && reply.Token? && IsDpop(reply.resp.tokenType) && Trim(reply.resp.sub) != ""
            && (p.did.Some? ==> p.did.value == reply.resp.sub) && ATPROTO in Scopes(reply.resp.scope)
            && (reply.resp.expiresIn.Some? ==> now + reply.resp.expiresIn.value <= TIME_MAX)
  {
    if reply.Token? {
      HasScope(reply.resp.scope, ATPROTO);
      NewExactly(reply.resp, p, now);
    }
  }

  /** Which failure an exchange reports after the type and the subject: another subject, no scope, no `atproto`, or too late an expiry. */
  lemma ExchangeMismatchExactly(p: Pending, r: TokenResponse, now: nat)
    requires IsDpop(r.tokenType) && Trim(r.sub) != ""
    ensures var o := ExchangeCode(p, Token(r), now);
            var expected := p.did.Some? ==> p.did.value == r.sub;
            && (o == Err(SubMismatch) <==> !expected)
            && (o == Err(MissingScope) <==> expected && r.scope.None?)
            && (o == Err(MissingAtprotoScope) <==> expected && r.scope.Some? && ATPROTO !in Scopes(r.scope))
            && (o.Err? ==> o.error in {SubMismatch, MissingScope, MissingAtprotoScope, ExpiryOverflow})
  {
    HasScope(r.scope, ATPROTO);
    NewExactly(r, p, now);
  }

  lemma FirstChecks(p: Pending, r: TokenResponse, now: nat)
    ensures !IsDpop(r.tokenType) ==> ExchangeCode(p, Token(r), now) == Err(InvalidTokenType)
    ensures IsDpop(r.tokenType) && Trim(r.sub) == "" ==> ExchangeCode(p, Token(r), now) == Err(MissingDid)
  {
  }

  /** And before that: no usable reply, no DPoP token, no subject. */
  lemma ExchangeErrorsExactly(p: Pending, reply: Reply, now: nat)
    ensures var o := ExchangeCode(p, reply, now);
            && (o == Err(Http) <==> reply.Failed?)
            && (o == Err(InvalidTokenType) <==> reply.Token? && !IsDpop(reply.resp.tokenType))
            && (o == Err(MissingDid) <==> reply.Token? && IsDpop(reply.resp.tokenType) && Trim(reply.resp.sub) == "")
  {
    if reply.Token? {
      FirstChecks(p, reply.resp, now);
      if IsDpop(reply.resp.tokenType) && Trim(reply.resp.sub) != "" {
        ExchangeMismatchExactly(p, reply.resp, now);
      }
    }
  }

  lemma HasScope(scope: Option<string>, word: string)
    ensures word in Scopes(scope) <==> scope.Some? && word in Words(scope.value)
  {
  }

  lemma NewExactly(r: TokenResponse, p: Pending, now: nat)
    ensures NewSession(r, p, now).Ok? <==>
            IsDpop(r.tokenType) && (r.expiresIn.Some? ==> now + r.expiresIn.value <= TIME_MAX)
  {
  }

  lemma NonBlank(sub: string)
    requires Trim(sub) != ""
    ensures sub != ""
  {
  }

  lemma NewFields(r: TokenResponse, p: Pending, now: nat)
    requires NewSession(r, p, now).Ok?
    ensures var s := NewSession(r, p, now).session;
            && s.tokenType == r.tokenType && s.sub == r.sub && s.scope == r.scope && s.access == r.access
            && s.refresh == r.refresh && s.key == p.key && s.pds == Some(p.pds) && s.issuer == Some(p.issuer)
            && s.endpoint == Some(p.endpoint) && s.created == now
            && s.expiresAt == (if r.expiresIn.Some? then Some(now + r.expiresIn.value) else None)
  {
  }

  lemma ExchangedIsNew(p: Pending, reply: Reply, now: nat)
    requires ExchangeCode(p, reply, now).Ok?
    ensures reply.Token? && ExchangeCode(p, reply, now) == NewSession(reply.resp, p, now)
  {
  }

  /**
   An exchanged session is well formed, bound to the request's subject, key, servers and endpoint, and holds
   the response's tokens and scope for as long as the response says.
   */
  lemma ExchangedIsWellFormed(p: Pending, reply: Reply, now: nat)
    requires ExchangeCode(p, reply, now).Ok?
    ensures var s := ExchangeCode(p, reply, now).session;
            && WellFormed(s) && s.key == p.key && (p.did.Some? ==> s.sub == p.did.value)
            && s.pds == Some(p.pds) && s.issuer == Some(p.issuer) && s.endpoint == Some(p.endpoint) && s.created == now
            && s.sub == reply.resp.sub && s.access == reply.resp.access && s.refresh == reply.resp.refresh
            && s.tokenType == reply.resp.tokenType && s.scope == reply.resp.scope
            && s.expiresAt == (if reply.resp.expiresIn.Some? then Some(now + reply.resp.expiresIn.value) else None)
  {
    ExchangedExactly(p, reply, now);
    ExchangedIsNew(p, reply, now);
    NewFields(reply.resp, p, now);
    NonBlank(reply.resp.sub);
  }

  // ---------------------------------------------------------------------------------------------
  // Refresh
  // ---------------------------------------------------------------------------------------------

  /** `rotate_tokens_with_scope`: an overflowing expiry means expired now. */
  function Rotate(s: Session, r: TokenResponse, now: nat): Session {
    s.(access := r.access, refresh := r.refresh,
       scope := if r.scope.Some? then r.scope else s.scope,
       expiresAt := if r.expiresIn.Some? && CheckedExpiry(now, r.expiresIn).None? then Some(now)
                    else CheckedExpiry(now, r.expiresIn))
  }

  function GrantedString(s: Session): string { if s.scope.Some? then s.scope.value else "" }

  /** The words of the new scope outside the old grant. */
  function Expanded(granted: string, requested: string): set<string> { WordSet(requested) - WordSet(granted) }

  function ScopeError(s: Session, scope: Option<string>): Option<Error> {
    if scope.None? then None
    else if ATPROTO !in Words(scope.value) then Some(MissingAtprotoScope)
    else if GrantedString(s) != "" && Expanded(GrantedString(s), scope.value) != {} then Some(ScopeExpansion)
    else None
  }

  function RefreshError(s: Session, reply: Reply): Option<Error> {
    if s.refresh.None? then Some(MissingRefreshToken)
    else if s.endpoint.None? then Some(MissingField)
    else if reply.Failed? then Some(Http)
    else if !IsDpop(reply.resp.tokenType) then Some(InvalidTokenType)
    else if reply.resp.sub == "" then Some(EmptySub)
    else if reply.resp.sub != s.sub then Some(SubMismatch)
    else ScopeError(s, reply.resp.scope)
  }

  function Refresh(s: Session, reply: Reply, now: nat): Session {
    if RefreshError(s, reply).Some? then s else Rotate(s, reply.resp, now)
  }

  /** On a well-formed session a response is accepted exactly when it names the same subject and narrows. */
  lemma AcceptedExactly(s: Session, reply: Reply)
    requires WellFormed(s)
    ensures RefreshError(s, reply).None? <==>
            && s.refresh.Some? && s.endpoint.Some? && reply.Token? && IsDpop(reply.resp.tokenType)
            && reply.resp.sub == s.sub
            && (reply.resp.scope.Some? ==>
                  ATPROTO in Scopes(reply.resp.scope) && Scopes(reply.resp.scope) <= Scopes(s.scope))
  {
    NonEmptyGrant(s);
    if reply.Token? && reply.resp.scope.Some? {
      ExpandedEmpty(GrantedString(s), reply.resp.scope.value);
    }
  }

  /**
   An accepted response's tokens replace the old ones, the session never lives longer than it allows and is
   expired at once if that cannot be represented, and nothing else changes.
   */
  lemma RefreshInstalls(s: Session, reply: Reply, now: nat)
    requires RefreshError(s, reply).None?
    ensures var t, r := Refresh(s, reply, now), reply.resp;
            && t.access == r.access && t.refresh == r.refresh
            && t.scope == (if r.scope.Some? then r.scope else s.scope)
            && (t.expiresAt.None? <==> r.expiresIn.None?)
            && (t.expiresAt.Some? ==> now <= t.expiresAt.value <= now + r.expiresIn.value)
            && (r.expiresIn.Some? ==>
                  t.expiresAt.value == if now + r.expiresIn.value <= TIME_MAX then now + r.expiresIn.value else now)
            && t.sub == s.sub && t.tokenType == s.tokenType && t.key == s.key && t.pds == s.pds && t.issuer == s.issuer
            && t.endpoint == s.endpoint && t.created == s.created
  {
  }

  /** Which failure a refresh reports: the first of the checks, in this order, that the session or the reply fails. */
  lemma RefreshErrorsExactly(s: Session, reply: Reply)
    ensures var e := RefreshError(s, reply);
            && (e == Some(MissingRefreshToken) <==> s.refresh.None?)
            && (e == Some(MissingField) <==> s.refresh.Some? && s.endpoint.None?)
            && (e == Some(Http) <==> s.refresh.Some? && s.endpoint.Some? && reply.Failed?)
            && (s.refresh.Some? && s.endpoint.Some? && reply.Token? ==>
                  var r := reply.resp;
                  && (e == Some(InvalidTokenType) <==> !IsDpop(r.tokenType))
                  && (e == Some(EmptySub) <==> IsDpop(r.tokenType) && r.sub == "")
                  && (e == Some(SubMismatch) <==> IsDpop(r.tokenType) && r.sub != "" && r.sub != s.sub)
                  && (IsDpop(r.tokenType) && r.sub != "" && r.sub == s.sub ==>
                        && (e == Some(MissingAtprotoScope) <==> r.scope.Some? && ATPROTO !in Scopes(r.scope))
                        && (e == Some(ScopeExpansion) <==>
                              && r.scope.Some? && ATPROTO in Scopes(r.scope) && GrantedString(s) != ""
                              && !(Scopes(r.scope) <= Scopes(s.scope)))))
  {
    if reply.Token? && reply.resp.scope.Some? {
      ExpandedEmpty(GrantedString(s), reply.resp.scope.value);
    }
  }

  lemma ExpandedEmpty(granted: string, requested: string)
    ensures Expanded(granted, requested) == {} <==> WordSet(requested) <= WordSet(granted)
  {
    assert forall w :: w in Expanded(granted, requested) <==> w in WordSet(requested) && w !in WordSet(granted);
  }

  lemma NonEmptyGrant(s: Session)
    requires Scopes(s.scope) != {}
    ensures GrantedString(s) != ""
  {
    assert Words("") == [];
  }

  /** One refresh keeps subject, key, type and form, and only narrows the scopes. */
  lemma RefreshNarrows(s: Session, reply: Reply, now: nat)
    requires WellFormed(s)
    ensures var t := Refresh(s, reply, now);
            && WellFormed(t) && t.sub == s.sub && t.key == s.key && t.tokenType == s.tokenType
            && t.created == s.created && Scopes(t.scope) <= Scopes(s.scope)
  {
    AcceptedExactly(s, reply);
  }

  // ---------------------------------------------------------------------------------------------
  // Whole runs
  // ---------------------------------------------------------------------------------------------

  /** The sessions that a sequence of token replies takes `sessions[0]` through. */
  ghost predicate IsRun(sessions: seq<Session>, replies: seq<(Reply, nat)>) {
    && |sessions| == |replies| + 1
    && (forall i :: 0 <= i < |replies| ==> sessions[i + 1] == Refresh(sessions[i], replies[i].0, replies[i].1))
  }

  lemma {:induction false} RunNarrows(sessions: seq<Session>, replies: seq<(Reply, nat)>, i: nat, j: nat)
    requires IsRun(sessions, replies) && i <= j < |sessions| && WellFormed(sessions[i])
    ensures WellFormed(sessions[j])
    ensures sessions[j].sub == sessions[i].sub && sessions[j].key == sessions[i].key
    ensures Scopes(sessions[j].scope) <= Scopes(sessions[i].scope)
    decreases j
  {
    if i < j {
      RunNarrows(sessions, replies, i, j - 1);
      RefreshNarrows(sessions[j - 1], replies[j - 1].0, replies[j - 1].1);
      assert sessions[j] == Refresh(sessions[j - 1], replies[j - 1].0, replies[j - 1].1);
    }
  }

  /**
   For a session built by an exchange, every sequence of refreshes keeps subject and DPoP key, keeps the
   scopes a shrinking set that holds `atproto`, and a failed refresh changes nothing.
   */
  lemma SessionGuarantees(p: Pending, first: Reply, now: nat, sessions: seq<Session>, replies: seq<(Reply, nat)>,
                          i: nat, j: nat)
    requires ExchangeCode(p, first, now).Ok? && IsRun(sessions, replies) && i <= j < |sessions|
    requires sessions[0] == ExchangeCode(p, first, now).session
    ensures sessions[j].key == p.key && sessions[j].sub == first.resp.sub
    ensures p.did.Some? ==> sessions[j].sub == p.did.value
    ensures ATPROTO in Scopes(sessions[j].scope)
    ensures Scopes(sessions[j].scope) <= Scopes(sessions[i].scope) <= Scopes(first.resp.scope)
    ensures j < |replies| && RefreshError(sessions[j], replies[j].0).Some? ==> sessions[j + 1] == sessions[j]
  {
    ExchangedIsWellFormed(p, first, now);
    RunNarrows(sessions, replies, 0, i);
    RunNarrows(sessions, replies, i, j);
  }

  // ---------------------------------------------------------------------------------------------
  // Sessions built by hand
  // ---------------------------------------------------------------------------------------------

  /** Whether some response could widen the session's scopes. */
  ghost predicate NeverWidens(s: Session) {
    forall reply: Reply, now: nat :: Scopes(Refresh(s, reply, now).scope) <= Scopes(s.scope)
  }

  /**
   `OAuthSession::new` also takes an absent or empty scope, for which the expansion check is skipped: such
   a session, once it can be refreshed at all, can be widened. Every other session cannot.
   */
  lemma NeverWidensExactly(s: Session)
    ensures NeverWidens(s) <==> s.sub == "" || s.refresh.None? || s.endpoint.None? || GrantedString(s) != ""
  {
    if s.sub != "" && s.refresh.Some? && s.endpoint.Some? && GrantedString(s) == "" {
      var reply := Token(TokenResponse(s.sub, "", None, "DPoP", Some(ATPROTO), None));
      AloneIsWord(ATPROTO);
      assert Words("") == [];
      assert Scopes(s.scope) == {};
      assert ATPROTO in Scopes(Refresh(s, reply, 0).scope);
    } else {
      forall reply: Reply, now: nat ensures Scopes(Refresh(s, reply, now).scope) <= Scopes(s.scope) {
        CannotWiden(s, reply, now);
      }
    }
  }

  lemma CannotWiden(s: Session, reply: Reply, now: nat)
    requires s.sub == "" || s.refresh.None? || s.endpoint.None? || GrantedString(s) != ""
    ensures Scopes(Refresh(s, reply, now).scope) <= Scopes(s.scope)
  {
    if RefreshError(s, reply).None? && reply.resp.scope.Some? {
      ExpandedEmpty(GrantedString(s), reply.resp.scope.value);
    }
  }

  // ---------------------------------------------------------------------------------------------
  // The object
  // ---------------------------------------------------------------------------------------------

  class OAuthSession {
    const sub: string
    const key: string
    const tokenType: string
    const pds: Option<string>
    const issuer: Option<string>
    const endpoint: Option<string>
    const created: nat
    var access: string
    var refresh: Option<string>
    var scope: Option<string>
    var expiresAt: Option<nat>

    ghost function Contents(): Session
      reads this
    {
      Session(sub, access, refresh, tokenType, scope, expiresAt, key, pds, issuer, endpoint, created)
    }

    constructor (s: Session)
      ensures Contents() == s
    {
      sub, key, tokenType, created := s.sub, s.key, s.tokenType, s.created;
      pds, issuer, endpoint := s.pds, s.issuer, s.endpoint;
      access, refresh, scope, expiresAt := s.access, s.refresh, s.scope, s.expiresAt;
    }

    /** `rotate_tokens_with_scope`. */
    method RotateTokensWithScope(newAccess: string, newRefresh: Option<string>, expiresIn: Option<nat>,
                                 newScope: Option<string>, now: nat)
      modifies this
      ensures Contents() == Rotate(old(Contents()), TokenResponse(sub, newAccess, newRefresh, tokenType, newScope, expiresIn), now)
    {
      access := newAccess;
      refresh := newRefresh;
      if newScope.Some? {
        scope := newScope;
      }
      var at := CheckedExpiry(now, expiresIn);
      if expiresIn.Some? && at.None? {
        expiresAt := Some(now);
        return;
      }
      expiresAt := at;
    }

    /** `refresh_session_locked`, given the token endpoint's reply. */
    method RefreshLocked(reply: Reply, now: nat) returns (error: Option<Error>)
      modifies this
      ensures error == RefreshError(old(Contents()), reply)
      ensures Contents() == Refresh(old(Contents()), reply, now)
    {
      if refresh.None? {
        return Some(MissingRefreshToken);
      }
      if endpoint.None? {
        return Some(MissingField);
      }
      if reply.Failed? {
        return Some(Http);
      }
      var r := reply.resp;
      if !IsDpop(r.tokenType) {
        return Some(InvalidTokenType);
      }
      if r.sub == "" {
        return Some(EmptySub);
      }
      if r.sub != sub {
        return Some(SubMismatch);
      }
      var granted := if scope.Some? then scope.value else "";
      if r.scope.Some? {
        if ATPROTO !in Words(r.scope.value) {
          return Some(MissingAtprotoScope);
        }
        if granted != "" && Expanded(granted, r.scope.value) != {} {
          return Some(ScopeExpansion);
        }
      }
      RotateTokensWithScope(r.access, r.refresh, r.expiresIn, r.scope, now);
      return None;
    }
  }
}
