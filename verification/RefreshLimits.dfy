/**
 Which states schedules lead to, and two schedules that submit a token the server has consumed: after a lost
 reply, and for two sessions that are copies of each other.
 */
module RefreshLimits {
  import opened Text
  import opened LockTable
  import Shards
  import opened RefreshProtocol

  const FULL: nat := MAX_TRACKED_REFRESH_SUBJECTS

  /** Some schedule leads from `s0` to `s`. */
  ghost predicate Reaches(s0: State, s: State) {
    exists es :: Exec(s0, es) == Some(s)
  }

  lemma ReachesSelf(s: State)
    ensures Reaches(s, s)
  {
    assert Exec(s, []) == Some(s);
  }

  lemma {:induction false} ExecAppend(s: State, es: seq<Event>, e: Event)
    requires Exec(s, es).Some? && Enabled(Exec(s, es).value, e)
    ensures Exec(s, es + [e]) == Some(Apply(Exec(s, es).value, e))
    decreases |es|
  {
    if es == [] {
      var t := Apply(s, e);
      assert (es + [e])[1..] == [];
      assert Exec(t, []) == Some(t);
    } else {
      assert (es + [e])[1..] == es[1..] + [e];
      ExecAppend(Apply(s, es[0]), es[1..], e);
    }
  }

  lemma ReachesStep(s0: State, s: State, e: Event)
    requires Reaches(s0, s) && Enabled(s, e)
    ensures Reaches(s0, Apply(s, e))
  {
    var es :| Exec(s0, es) == Some(s);
    ExecAppend(s0, es, e);
  }

  // ---------------------------------------------------------------------------------------------
  // A call arrives
  // ---------------------------------------------------------------------------------------------

  predicate HasToken(s: State, x: SessionId) { x in s.subjects && x in s.tokens && s.tokens[x].Some? }

  /** Somebody about to refresh `session`, through `refresh_session` if `exclusive`. */
  datatype Caller = Caller(session: SessionId, exclusive: bool)

  /** The call gets as far as the mutex table. */
  predicate CanCall(s: State, c: Caller) {
    && c.session in s.subjects && c.session in s.tokens
    && (if c.exclusive then c.session in s.owned else s.tokens[c.session].Some?)
  }

  /** What the call knows of its session's token before it is inside. */
  function Seen(s: State, c: Caller): Option<Token>
    requires CanCall(s, c)
  {
    if c.exclusive then None else s.tokens[c.session]
  }

  function Borrows(s: State, c: Caller): set<SessionId> {
    if c.exclusive then s.borrowed + {c.session} else s.borrowed
  }

  /** The state in which the new task has looked for a mutex or is about to. */
  function Begun(s: State, t: TaskId, c: Caller, pc: Pc): State {
    s.(tasks := s.tasks[t := Task(c.session, c.exclusive, pc)], borrowed := Borrows(s, c))
  }

  /** The state after a new task found no mutex for its subject and inserted one. */
  function Arrived(s: State, t: TaskId, c: Caller, victim: Subject): State
    requires CanCall(s, c)
  {
    Begun(s, t, c, Waiting(Seen(s, c), s.nextLock)).(
    locks := MakeRoom(s.locks, Referenced(s), victim)[s.subjects[c.session] := s.nextLock],
    nextLock := s.nextLock + 1)
  }

  lemma Begins(s0: State, s: State, t: TaskId, c: Caller)
    requires Reaches(s0, s) && t !in s.tasks && CanCall(s, c) && c.session !in s.borrowed
    ensures Reaches(s0, Begun(s, t, c, Observed(Seen(s, c))))
  {
    var s1 := Apply(s, Spawn(t, c.session, c.exclusive));
    ReachesStep(s0, s, Spawn(t, c.session, c.exclusive));
    ReachesStep(s0, s1, Observe(t));
    assert Apply(s1, Observe(t)) == Begun(s, t, c, Observed(Seen(s, c)));
  }

  lemma Misses(s0: State, s: State, t: TaskId, c: Caller)
    requires Reaches(s0, s) && t !in s.tasks && CanCall(s, c) && c.session !in s.borrowed
    requires s.subjects[c.session] !in s.locks
    ensures Reaches(s0, Begun(s, t, c, Missed(Seen(s, c))))
  {
    var s1 := Begun(s, t, c, Observed(Seen(s, c)));
    Begins(s0, s, t, c);
    ReachesStep(s0, s1, ReadLookup(t));
    assert Apply(s1, ReadLookup(t)) == Begun(s, t, c, Missed(Seen(s, c)));
  }

  /** A task without a clone references nothing. */
  lemma MissedReferences(s: State, s3: State, t: TaskId, task: Task)
    requires t !in s.tasks && s3.tasks == s.tasks[t := task] && !HasClone(task.pc)
    ensures Referenced(s3) == Referenced(s)
  {
    assert forall u :: u in s3.tasks && HasClone(s3.tasks[u].pc) <==> u in s.tasks && HasClone(s.tasks[u].pc);
  }

  lemma MissedInserts(s: State, t: TaskId, victim: Subject)
    requires Enabled(s, WriteLookup(t, victim)) && SubjectOf(s, t) !in s.locks
    ensures Apply(s, WriteLookup(t, victim))
            == Goto(s, t, Waiting(s.tasks[t].pc.seen, s.nextLock)).(
               locks := MakeRoom(s.locks, Referenced(s), victim)[SubjectOf(s, t) := s.nextLock], nextLock := s.nextLock + 1)
  {
  }

  lemma InsertArrives(s: State, t: TaskId, c: Caller, victim: Subject)
    requires t !in s.tasks && CanCall(s, c) && s.subjects[c.session] !in s.locks
    requires MustEvict(s.locks, Referenced(s)) ==> victim in IdleSweep(s.locks, Referenced(s))
    ensures Enabled(Begun(s, t, c, Missed(Seen(s, c))), WriteLookup(t, victim))
    ensures Apply(Begun(s, t, c, Missed(Seen(s, c))), WriteLookup(t, victim)) == Arrived(s, t, c, victim)
  {
    var s3 := Begun(s, t, c, Missed(Seen(s, c)));
    MissedReferences(s, s3, t, s3.tasks[t]);
    MissedInserts(s3, t, victim);
    assert Goto(s3, t, Waiting(Seen(s, c), s.nextLock)).tasks == Arrived(s, t, c, victim).tasks;
  }

  lemma Arrives(s0: State, s: State, t: TaskId, c: Caller, victim: Subject)
    requires Reaches(s0, s) && t !in s.tasks && CanCall(s, c) && c.session !in s.borrowed
    requires s.subjects[c.session] !in s.locks
    requires MustEvict(s.locks, Referenced(s)) ==> victim in IdleSweep(s.locks, Referenced(s))
    ensures Reaches(s0, Arrived(s, t, c, victim))
  {
    Misses(s0, s, t, c);
    InsertArrives(s, t, c, victim);
    ReachesStep(s0, Begun(s, t, c, Missed(Seen(s, c))), WriteLookup(t, victim));
  }

  lemma FindsMutex(s0: State, s: State, t: TaskId, c: Caller)
    requires Reaches(s0, s) && t !in s.tasks && CanCall(s, c) && c.session !in s.borrowed
    requires s.subjects[c.session] in s.locks
    ensures Reaches(s0, Begun(s, t, c, Waiting(Seen(s, c), s.locks[s.subjects[c.session]])))
  {
    var s1 := Begun(s, t, c, Observed(Seen(s, c)));
    Begins(s0, s, t, c);
    ReachesStep(s0, s1, ReadLookup(t));
    assert Apply(s1, ReadLookup(t)) == Begun(s, t, c, Waiting(Seen(s, c), s.locks[s.subjects[c.session]]));
  }

  // ---------------------------------------------------------------------------------------------
  // One call after another
  // ---------------------------------------------------------------------------------------------

  /** Nobody is inside and the table has room. */
  ghost predicate Calm(s0: State, s: State) {
    && Reaches(s0, s) && s.subjects == s0.subjects && s.owned == s0.owned
    && s.held == map[] && s.borrowed == {} && |s.locks| < FULL
  }

  /** Task `t` is the call of `c` about to submit `rt`, alone inside. */
  ghost predicate Submitting(s0: State, s: State, t: TaskId, c: Caller, rt: Token) {
    && Reaches(s0, s) && s.subjects == s0.subjects && s.owned == s0.owned
    && s.borrowed == (if c.exclusive then {c.session} else {})
    && At(s, t) && s.tasks[t].session == c.session && s.tasks[t].exclusive == c.exclusive
    && s.tasks[t].pc.Ready? && s.tasks[t].pc.rt == rt && s.tasks[t].pc.working == Some(rt)
    && s.held == map[s.tasks[t].pc.lock := t]
  }

  /** Between `s` and `s'` nothing was sent or written, and at most one mutex entered. */
  predicate Quietly(s: State, s': State) {
    && s'.subjects == s.subjects && s'.owned == s.owned
    && s'.tokens == s.tokens && s'.log == s.log && s'.issued == s.issued && |s'.locks| <= |s.locks| + 1
  }

  /** `s'` is `s` with the call of `c` waiting on some mutex. */
  ghost predicate JoinsQueue(s: State, s': State, t: TaskId, c: Caller) {
    && CanCall(s, c) && Quietly(s, s') && s'.held == s.held && s'.borrowed == Borrows(s, c)
    && t in s'.tasks && s'.tasks == s.tasks[t := s'.tasks[t]]
    && s'.tasks[t].session == c.session && s'.tasks[t].exclusive == c.exclusive
    && s'.tasks[t].pc.Waiting? && s'.tasks[t].pc.seen == Seen(s, c)
  }

  lemma QueuesAnew(s0: State, s: State, t: TaskId, c: Caller) returns (s': State)
    requires Calm(s0, s) && t !in s.tasks && CanCall(s, c) && s.subjects[c.session] !in s.locks
    ensures Reaches(s0, s') && JoinsQueue(s, s', t, c)
  {
    Arrives(s0, s, t, c, "");
    s' := Arrived(s, t, c, "");
    Shards.InsertSize(s.locks, s.subjects[c.session], s.nextLock);
  }

  lemma Queues(s0: State, s: State, t: TaskId, c: Caller) returns (s': State)
    requires Calm(s0, s) && t !in s.tasks && CanCall(s, c)
    ensures Reaches(s0, s') && JoinsQueue(s, s', t, c)
  {
    if s.subjects[c.session] in s.locks {
      FindsMutex(s0, s, t, c);
      s' := Begun(s, t, c, Waiting(Seen(s, c), s.locks[s.subjects[c.session]]));
    } else {
      s' := QueuesAnew(s0, s, t, c);
    }
  }

  /** A waiting task that is the only one takes its working copy. */
  lemma TakesWorkingCopy(s0: State, was: State, s: State, t: TaskId, c: Caller, rt: Token) returns (s': State)
    requires Calm(s0, was) && JoinsQueue(was, s, t, c) && Reaches(s0, s) && s.tokens[c.session] == Some(rt)
    ensures Submitting(s0, s', t, c, rt) && Quietly(s, s') && s'.tasks.Keys == s.tasks.Keys && s'.locks == s.locks
  {
    var s1 := Apply(s, Acquire(t));
    ReachesStep(s0, s, Acquire(t));
    ReachesStep(s0, s1, Reread(t));
    s' := Apply(s1, Reread(t));
  }

  lemma GetsReady(s0: State, s: State, t: TaskId, c: Caller, rt: Token) returns (s': State)
    requires Calm(s0, s) && t !in s.tasks && CanCall(s, c) && s.tokens[c.session] == Some(rt)
    ensures Submitting(s0, s', t, c, rt) && Quietly(s, s') && s'.tasks.Keys == s.tasks.Keys + {t}
  {
    var s1 := Queues(s0, s, t, c);
    s' := TakesWorkingCopy(s0, s, s1, t, c, rt);
  }

  /** The task gives back mutex, clone and session. */
  lemma Departs(s0: State, s: State, t: TaskId) returns (s': State)
    requires Reaches(s0, s) && s.subjects == s0.subjects && s.owned == s0.owned && At(s, t) && s.tasks[t].pc.Leaving?
    requires s.held == map[s.tasks[t].pc.lock := t] && |s.locks| < FULL
    requires s.borrowed == if s.tasks[t].exclusive then {s.tasks[t].session} else {}
    ensures Calm(s0, s') && s'.tokens == s.tokens && s'.tasks.Keys == s.tasks.Keys && s'.locks == s.locks && s'.log == s.log
  {
    var s1 := Apply(s, Release(t));
    ReachesStep(s0, s, Release(t));
    s' := DropsClone(s0, s1, t);
  }

  lemma DropsClone(s0: State, s: State, t: TaskId) returns (s': State)
    requires Reaches(s0, s) && s.subjects == s0.subjects && s.owned == s0.owned && At(s, t) && s.tasks[t].pc.Dropping?
    requires s.held == map[] && |s.locks| < FULL
    requires s.borrowed == if s.tasks[t].exclusive then {s.tasks[t].session} else {}
    ensures Calm(s0, s') && s'.tokens == s.tokens && s'.tasks.Keys == s.tasks.Keys && s'.locks == s.locks && s'.log == s.log
  {
    ReachesStep(s0, s, DropClone(t));
    s' := Apply(s, DropClone(t));
  }

  /** The exchange ends in an error after the server consumed the token. */
  lemma LosesReply(s0: State, s: State, t: TaskId, c: Caller, rt: Token) returns (s': State)
    requires Submitting(s0, s, t, c, rt) && |s.locks| < FULL
    ensures Calm(s0, s') && s'.tokens == s.tokens && s'.tasks.Keys == s.tasks.Keys && s'.locks == s.locks
    ensures s'.log == s.log + [Submission(t, rt, rt, Lost)]
  {
    var s1 := Apply(s, Exchange(t, Lost));
    ReachesStep(s0, s, Exchange(t, Lost));
    s' := Departs(s0, s1, t);
  }

  /** A successful reply, written back. */
  lemma WritesNext(s0: State, s: State, t: TaskId, c: Caller, rt: Token, next: Option<Token>) returns (s': State)
    requires Submitting(s0, s, t, c, rt) && (next.Some? ==> next.value !in s.issued)
    ensures Reaches(s0, s') && s'.subjects == s.subjects && s'.owned == s.owned && s'.borrowed == s.borrowed
    ensures s'.held == s.held && s'.locks == s.locks && s'.tokens == s.tokens[c.session := next]
    ensures s'.tasks == s.tasks[t := s.tasks[t].(pc := Leaving(s.tasks[t].pc.lock))]
    ensures s'.log == s.log + [Submission(t, rt, rt, Rotated(next))]
  {
    var s1 := Apply(s, Exchange(t, Rotated(next)));
    ReachesStep(s0, s, Exchange(t, Rotated(next)));
    ReachesStep(s0, s1, WriteBack(t));
    s' := Apply(s1, WriteBack(t));
  }

  /** The exchange succeeds and leaves the session with the token it brought, if any. */
  lemma Rotates(s0: State, s: State, t: TaskId, c: Caller, rt: Token, next: Option<Token>) returns (s': State)
    requires Submitting(s0, s, t, c, rt) && |s.locks| < FULL && (next.Some? ==> next.value !in s.issued)
    ensures Calm(s0, s') && s'.tokens == s.tokens[c.session := next] && s'.tasks.Keys == s.tasks.Keys && s'.locks == s.locks
    ensures s'.log == s.log + [Submission(t, rt, rt, Rotated(next))]
  {
    var s1 := WritesNext(s0, s, t, c, rt, next);
    s' := Departs(s0, s1, t);
  }

  /** After the schedule, task `t` is about to submit a token the server has already consumed. */
  ghost predicate Resubmits(s0: State, es: seq<Event>, t: TaskId) {
    && Exec(s0, es).Some? && Enabled(Exec(s0, es).value, Exchange(t, Rejected))
    && Exec(s0, es).value.tasks[t].pc.working.value in SpentTokens(Exec(s0, es).value.log)
  }

  lemma StartsCalm(s0: State)
    requires Init(s0)
    ensures Calm(s0, s0)
  {
    ReachesSelf(s0);
  }

  /** From the start the first call gets ready. */
  lemma FirstReady(s0: State, c: Caller, rt: Token) returns (s: State)
    requires Init(s0) && CanCall(s0, c) && s0.tokens[c.session] == Some(rt)
    ensures Submitting(s0, s, 0, c, rt) && s.tokens == s0.tokens && s.log == [] && s.issued == s0.issued
    ensures s.tasks.Keys == {0} && |s.locks| <= 1
  {
    StartsCalm(s0);
    s := GetsReady(s0, s0, 0, c, rt);
  }

  lemma ReadyResubmits(s0: State, s: State, t: TaskId, c: Caller, rt: Token)
    requires Submitting(s0, s, t, c, rt) && s.log == [Submission(0, rt, rt, Lost)]
    ensures exists es :: Resubmits(s0, es, t)
  {
    var es :| Exec(s0, es) == Some(s);
    assert rt in LostTokens(s.log);
    assert Resubmits(s0, es, t);
  }

  /** Two calls on one session, of either kind, the reply to the first of which is lost. */
  lemma LostTokenIsResubmitted(s0: State, c: Caller, d: Caller)
    requires Init(s0) && CanCall(s0, c) && CanCall(s0, d) && c.session == d.session && s0.tokens[c.session].Some?
    ensures exists es :: Resubmits(s0, es, 1)
  {
    var rt := s0.tokens[c.session].value;
    var s1 := FirstReady(s0, c, rt);
    var s2 := LosesReply(s0, s1, 0, c, rt);
    var s3 := GetsReady(s0, s2, 1, d, rt);
    ReadyResubmits(s0, s3, 1, d, rt);
  }

  lemma TwiceSubmitted(log: seq<Submission>, a: Submission, b: Submission)
    requires log == [a, b] && a.outcome.Rotated? && a.token == b.token
    ensures !NoReuse(log)
  {
    assert log[0].outcome.Rotated? && log[0].token == log[1].token;
  }

  /** The first call exchanges its session's token for `next`. */
  lemma FirstRotates(s0: State, c: Caller, rt: Token, next: Option<Token>) returns (s: State)
    requires Init(s0) && CanCall(s0, c) && s0.tokens[c.session] == Some(rt) && (next.Some? ==> next.value !in s0.issued)
    ensures Calm(s0, s) && s.tokens == s0.tokens[c.session := next] && s.tasks.Keys == {0} && |s.locks| <= 1
    ensures s.log == [Submission(0, rt, rt, Rotated(next))]
  {
    var s1 := FirstReady(s0, c, rt);
    s := Rotates(s0, s1, 0, c, rt, next);
  }

  /** After a call that brought the token `k`, the next call on that session is ready to submit exactly `k`. */
  lemma NextCallSubmitsNext(s0: State, c: Caller, d: Caller, k: Token) returns (s: State)
    requires Init(s0) && CanCall(s0, c) && CanCall(s0, d) && c.session == d.session && s0.tokens[c.session].Some?
    requires k !in s0.issued
    ensures Reaches(s0, s) && At(s, 1) && s.tasks[1].session == d.session && s.tasks[1].exclusive == d.exclusive
    ensures s.tasks[1].pc.Ready? && s.tasks[1].pc.working == Some(k) && Enabled(s, Exchange(1, Rejected))
    ensures var rt := s0.tokens[c.session].value; s.log == [Submission(0, rt, rt, Rotated(Some(k)))]
  {
    var s1 := FirstRotates(s0, c, s0.tokens[c.session].value, Some(k));
    s := GetsReady(s0, s1, 1, d, k);
  }

  /** The next call submits the token of its own session. */
  lemma ThenSubmits(s0: State, s: State, d: Caller, rt: Token) returns (s': State)
    requires Calm(s0, s) && |s.locks| + 1 < FULL && s.tasks.Keys == {0} && CanCall(s, d) && s.tokens[d.session] == Some(rt)
    ensures Reaches(s0, s') && s'.log == s.log + [Submission(1, rt, rt, Lost)]
  {
    var s1 := GetsReady(s0, s, 1, d, rt);
    s' := LosesReply(s0, s1, 1, d, rt);
  }

  /** Calls of either kind on two sessions that hold the same token: it is submitted again after it was rotated. */
  lemma CopiesReuse(s0: State, c: Caller, d: Caller)
    requires Init(s0) && CanCall(s0, c) && CanCall(s0, d) && c.session != d.session
    requires s0.tokens[c.session].Some? && s0.tokens[c.session] == s0.tokens[d.session]
    ensures exists s :: Reaches(s0, s) && !NoReuse(s.log)
  {
    var rt := s0.tokens[c.session].value;
    var s1 := FirstRotates(s0, c, rt, None);
    var s2 := ThenSubmits(s0, s1, d, rt);
    TwiceSubmitted(s2.log, Submission(0, rt, rt, Rotated(None)), Submission(1, rt, rt, Lost));
  }

  // ---------------------------------------------------------------------------------------------
  // Without tokens
  // ---------------------------------------------------------------------------------------------

  /** The standings of a task while no session holds a token: only exclusive calls get past their start. */
  predicate Harmless(task: Task) {
    match task.pc
    case Start => true
    case Observed(seen) => task.exclusive && seen.None?
    case Missed(seen) => task.exclusive && seen.None?
    case Waiting(seen, _) => task.exclusive && seen.None?
    case Holding(seen, _) => task.exclusive && seen.None?
    case Ready(_, _, _) => false
    case Exchanged(_, _, _) => false
    case Leaving(_) => task.exclusive
    case Dropping(_) => task.exclusive
    case Finished => true
  }

  /** No session holds a token and nothing was submitted. */
  ghost predicate Tokenless(s: State) {
    && (forall x :: x in s.tokens ==> s.tokens[x].None?)
    && (forall t :: t in s.tasks ==> Harmless(s.tasks[t]))
    && s.log == []
  }

  lemma WriteLookupHarmless(s: State, t: TaskId, victim: Subject)
    requires Enabled(s, WriteLookup(t, victim)) && Harmless(s.tasks[t])
    ensures var s' := Apply(s, WriteLookup(t, victim)); t in s'.tasks && Harmless(s'.tasks[t])
  {
  }

  lemma StaysHarmless(s: State, e: Event)
    requires Enabled(s, e) && Tokenless(s)
    ensures var s' := Apply(s, e); e.task in s'.tasks && Harmless(s'.tasks[e.task])
  {
    if e.WriteLookup? {
      WriteLookupHarmless(s, e.task, e.victim);
    }
  }

  lemma StepTokenless(s: State, e: Event)
    requires Enabled(s, e) && Tokenless(s)
    ensures Tokenless(Apply(s, e))
  {
    assert IsQuiet(e);
    QuietKeeps(s, e);
    StepMoves(s, e);
    StaysHarmless(s, e);
  }

  lemma {:induction false} RunTokenless(s: State, es: seq<Event>)
    requires Tokenless(s) && BorrowInv(s) && WellFormed(s) && Exec(s, es).Some?
    ensures var s' := Exec(s, es).value;
            Tokenless(s') && BorrowInv(s') && WellFormed(s') && s'.subjects == s.subjects && s'.owned == s.owned
    decreases |es|
  {
    if es != [] {
      StepTokenless(s, es[0]);
      StepBorrowInv(s, es[0]);
      StepWellFormed(s, es[0]);
      StepMoves(s, es[0]);
      RunTokenless(Apply(s, es[0]), es[1..]);
    }
  }

  ghost predicate SomeToken(s: State) { exists x :: HasToken(s, x) }

  lemma StartsTokenless(s0: State)
    requires Init(s0) && !SomeToken(s0)
    ensures Tokenless(s0)
  {
    forall x | x in s0.tokens ensures s0.tokens[x].None? {
      assert !HasToken(s0, x);
    }
  }

  /** A schedule that submits a spent token again exists from exactly the starts with some token. */
  lemma {:induction false} ResubmissionExactly(s0: State)
    requires Init(s0)
    ensures (exists es, t: TaskId :: Resubmits(s0, es, t)) <==> SomeToken(s0)
  {
    if SomeToken(s0) {
      var x :| HasToken(s0, x);
      LostTokenIsResubmitted(s0, Caller(x, false), Caller(x, false));
    } else {
      StartsTokenless(s0);
      forall es, t: TaskId ensures !Resubmits(s0, es, t) {
        if Exec(s0, es).Some? {
          RunTokenless(s0, es);
        }
      }
    }
  }
}
