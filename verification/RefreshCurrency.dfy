/**
 What a session holds: in every run without eviction, the token its last successful exchange brought.
 */
module RefreshCurrency {
  import opened Text
  import opened LockTable
  import opened RefreshProtocol

  /** The token the last successful exchange for session `x` brought, or the one it started with. */
  function LatestToken(start: Option<Token>, log: seq<Submission>, tasks: map<TaskId, Task>, x: SessionId): Option<Token> {
    if log == [] then start
    else
      var last := log[|log| - 1];
      if last.outcome.Rotated? && last.task in tasks && tasks[last.task].session == x then last.outcome.next
      else LatestToken(start, log[..|log| - 1], tasks, x)
  }

  /** Tasks may come and move, but keep their session. */
  lemma {:induction false} LatestStable(start: Option<Token>, log: seq<Submission>, tasks: map<TaskId, Task>,
                                        tasks': map<TaskId, Task>, x: SessionId)
    requires forall i :: 0 <= i < |log| ==> log[i].task in tasks
    requires forall t :: t in tasks ==> t in tasks' && tasks'[t].session == tasks[t].session
    ensures LatestToken(start, log, tasks', x) == LatestToken(start, log, tasks, x)
  {
    if log != [] {
      LatestStable(start, log[..|log| - 1], tasks, tasks', x);
    }
  }

  lemma {:induction false} LatestAppend(start: Option<Token>, log: seq<Submission>, e: Submission, tasks: map<TaskId, Task>,
                                        x: SessionId)
    ensures LatestToken(start, log + [e], tasks, x)
            == if e.outcome.Rotated? && e.task in tasks && tasks[e.task].session == x then e.outcome.next
               else LatestToken(start, log, tasks, x)
  {
    assert (log + [e])[..|log|] == log;
  }

  /** A session holds its latest token, unless a task is about to write that back. */
  ghost predicate IsCurrent(s0: State, s: State, x: SessionId)
    requires x in s0.tokens && x in s.tokens
  {
    var latest := LatestToken(s0.tokens[x], s.log, s.tasks, x);
    && (!Pending(s, x) ==> s.tokens[x] == latest)
    && (forall t :: t in s.tasks && s.tasks[t].session == x && s.tasks[t].pc.Exchanged? ==> s.tasks[t].pc.next == latest)
  }

  ghost predicate CurrentInv(s0: State, s: State) {
    && (forall x :: x in s.tokens <==> x in s0.tokens)
    && (forall i :: 0 <= i < |s.log| ==> s.log[i].task in s.tasks)
    && (forall x :: x in s.tokens && x in s0.tokens ==> IsCurrent(s0, s, x))
  }

  /** A step that sends and writes nothing. */
  lemma QuietCurrent(s0: State, s: State, e: Event, x: SessionId)
    requires CurrentInv(s0, s) && Enabled(s, e) && IsQuiet(e) && x in s.tokens && x in s0.tokens
    ensures x in Apply(s, e).tokens && IsCurrent(s0, Apply(s, e), x)
  {
    var s' := Apply(s, e);
    StepMoves(s, e);
    QuietKeeps(s, e);
    QuietStanding(s, e);
    LatestStable(s0.tokens[x], s.log, s.tasks, s'.tasks, x);
    assert IsCurrent(s0, s, x);
    if Pending(s, x) {
      var u :| u in s.tasks && s.tasks[u].session == x && s.tasks[u].pc.Exchanged?;
      assert u in s'.tasks && s'.tasks[u] == s.tasks[u];
    }
  }

  /** Nobody else of the session is in the critical section. */
  lemma AloneInSession(s: State, t: TaskId, u: TaskId)
    requires LockInv(s) && Shared(s) && At(s, t) && At(s, u) && t != u
    requires InCritical(s.tasks[t].pc) && InCritical(s.tasks[u].pc)
    ensures s.tasks[u].session != s.tasks[t].session
  {
    SharedExcludes(s);
    assert SubjectOf(s, t) != SubjectOf(s, u);
  }

  /** A task of `x` with a write-back due in `s` is so in `s'`. */
  lemma PendingStays(s: State, s': State, t: TaskId, x: SessionId)
    requires t in s'.tasks && s'.tasks == s.tasks[t := s'.tasks[t]]
    requires Pending(s, x) && (t in s.tasks ==> s.tasks[t].session != x || !s.tasks[t].pc.Exchanged?)
    ensures Pending(s', x)
  {
    var u :| u in s.tasks && s.tasks[u].session == x && s.tasks[u].pc.Exchanged?;
    assert u != t && u in s'.tasks && s'.tasks[u] == s.tasks[u];
  }

  /** No other task of the session of `t` has a write-back due. */
  ghost predicate OnlyWriter(s: State, t: TaskId) {
    t in s.tasks && forall u :: u in s.tasks && u != t && s.tasks[u].pc.Exchanged? ==> s.tasks[u].session != s.tasks[t].session
  }

  lemma InsideIsOnlyWriter(s: State, t: TaskId)
    requires LockInv(s) && Shared(s) && At(s, t) && InCritical(s.tasks[t].pc)
    ensures OnlyWriter(s, t)
  {
    forall u | u in s.tasks && u != t && s.tasks[u].pc.Exchanged? ensures s.tasks[u].session != s.tasks[t].session {
      AloneInSession(s, t, u);
    }
  }

  lemma {:induction false} LatestKept(s0: State, s: State, s': State, t: TaskId, x: SessionId)
    requires CurrentInv(s0, s) && x in s0.tokens && t in s.tasks && t in s'.tasks
    requires s'.tasks == s.tasks[t := s'.tasks[t]] && s'.tasks[t].session == s.tasks[t].session
    ensures LatestToken(s0.tokens[x], s.log, s'.tasks, x) == LatestToken(s0.tokens[x], s.log, s.tasks, x)
  {
    LatestStable(s0.tokens[x], s.log, s.tasks, s'.tasks, x);
  }

  /** A failed exchange: the log may grow, the latest token stays. */
  lemma {:induction false} FailedCurrent(s0: State, s: State, s': State, t: TaskId, x: SessionId)
    requires CurrentInv(s0, s) && x in s0.tokens && x in s.tokens && t in s.tasks && s.tasks[t].pc.Ready?
    requires s'.tokens == s.tokens && s'.tasks == s.tasks[t := s.tasks[t].(pc := Leaving(s.tasks[t].pc.lock))]
    requires LatestToken(s0.tokens[x], s'.log, s'.tasks, x) == LatestToken(s0.tokens[x], s.log, s'.tasks, x)
    ensures IsCurrent(s0, s', x)
  {
    assert IsCurrent(s0, s, x);
    LatestKept(s0, s, s', t, x);
    if Pending(s, x) {
      PendingStays(s, s', t, x);
    }
  }

  /** A successful exchange: the session's latest token is the new one, and its write-back is due. */
  lemma {:induction false} ExchangesCurrent(s0: State, s: State, s': State, t: TaskId, next: Option<Token>, x: SessionId)
    requires CurrentInv(s0, s) && x in s0.tokens && x in s.tokens && Exchanges(s, s', t, next) && OnlyWriter(s, t)
    requires LatestToken(s0.tokens[x], s'.log, s'.tasks, x)
             == if s.tasks[t].session == x then next else LatestToken(s0.tokens[x], s.log, s'.tasks, x)
    ensures IsCurrent(s0, s', x)
  {
    assert IsCurrent(s0, s, x);
    LatestKept(s0, s, s', t, x);
    assert s'.tasks[t].pc.Exchanged?;
    if Pending(s, x) {
      PendingStays(s, s', t, x);
    }
  }

  lemma RotatedCurrent(s0: State, s: State, t: TaskId, o: Outcome, x: SessionId)
    requires LockInv(s) && Shared(s) && CurrentInv(s0, s) && x in s.tokens && x in s0.tokens
    requires Enabled(s, Exchange(t, o)) && o.Rotated?
    ensures x in Apply(s, Exchange(t, o)).tokens && IsCurrent(s0, Apply(s, Exchange(t, o)), x)
  {
    var s', pc := Apply(s, Exchange(t, o)), s.tasks[t].pc;
    InsideIsOnlyWriter(s, t);
    ApplyExchanges(s, t, o);
    LatestAppend(s0.tokens[x], s.log, Submission(t, pc.rt, pc.working.value, o), s'.tasks, x);
    ExchangesCurrent(s0, s, s', t, o.next, x);
  }

  lemma ApplyFails(s: State, t: TaskId, o: Outcome)
    requires Enabled(s, Exchange(t, o)) && !o.Rotated?
    ensures var s', pc := Apply(s, Exchange(t, o)), s.tasks[t].pc;
            && s'.tokens == s.tokens && s'.tasks == s.tasks[t := s.tasks[t].(pc := Leaving(pc.lock))]
            && s'.log == if o.NotSent? then s.log else s.log + [Submission(t, pc.rt, pc.working.value, o)]
  {
  }

  lemma FailureCurrent(s0: State, s: State, t: TaskId, o: Outcome, x: SessionId)
    requires CurrentInv(s0, s) && x in s.tokens && x in s0.tokens && Enabled(s, Exchange(t, o)) && !o.Rotated?
    ensures x in Apply(s, Exchange(t, o)).tokens && IsCurrent(s0, Apply(s, Exchange(t, o)), x)
  {
    var s', pc := Apply(s, Exchange(t, o)), s.tasks[t].pc;
    ApplyFails(s, t, o);
    if !o.NotSent? {
      LatestAppend(s0.tokens[x], s.log, Submission(t, pc.rt, pc.working.value, o), s'.tasks, x);
    }
    FailedCurrent(s0, s, s', t, x);
  }

  /** The write-back gives the session its latest token. */
  lemma WritesCurrent(s0: State, s: State, s': State, t: TaskId, x: SessionId)
    requires CurrentInv(s0, s) && x in s0.tokens && x in s.tokens && Writes(s, s', t) && OnlyWriter(s, t)
    ensures IsCurrent(s0, s', x)
  {
    assert IsCurrent(s0, s, x);
    LatestKept(s0, s, s', t, x);
    if Pending(s, x) && s.tasks[t].session != x {
      PendingStays(s, s', t, x);
    }
  }

  lemma WriteBackCurrent(s0: State, s: State, t: TaskId, x: SessionId)
    requires LockInv(s) && Shared(s) && CurrentInv(s0, s) && x in s.tokens && x in s0.tokens && Enabled(s, WriteBack(t))
    ensures x in Apply(s, WriteBack(t)).tokens && IsCurrent(s0, Apply(s, WriteBack(t)), x)
  {
    InsideIsOnlyWriter(s, t);
    WritesCurrent(s0, s, Apply(s, WriteBack(t)), t, x);
  }

  lemma LogStaysKnown(s: State, e: Event)
    requires Enabled(s, e) && forall i :: 0 <= i < |s.log| ==> s.log[i].task in s.tasks
    ensures forall i :: 0 <= i < |Apply(s, e).log| ==> Apply(s, e).log[i].task in Apply(s, e).tasks
  {
    StepMoves(s, e);
    if IsQuiet(e) {
      QuietKeeps(s, e);
    }
  }

  /** Every step without eviction keeps each session's token the latest one, but for a write-back that is due. */
  lemma StepCurrentInv(s0: State, s: State, e: Event)
    requires LockInv(s) && Shared(s) && CurrentInv(s0, s) && Enabled(s, e)
    ensures CurrentInv(s0, Apply(s, e))
  {
    StepMoves(s, e);
    LogStaysKnown(s, e);
    forall x | x in s.tokens && x in s0.tokens ensures x in Apply(s, e).tokens && IsCurrent(s0, Apply(s, e), x) {
      if IsQuiet(e) {
        QuietCurrent(s0, s, e, x);
      } else if e.WriteBack? {
        WriteBackCurrent(s0, s, e.task, x);
      } else if e.outcome.Rotated? {
        RotatedCurrent(s0, s, e.task, e.outcome, x);
      } else {
        FailureCurrent(s0, s, e.task, e.outcome, x);
      }
    }
  }

  lemma {:induction false} RunCurrentInv(s0: State, s: State, es: seq<Event>)
    requires LockInv(s) && Shared(s) && CurrentInv(s0, s) && Exec(s, es).Some? && NeverEvicts(s, es)
    ensures CurrentInv(s0, Exec(s, es).value)
    decreases |es|
  {
    if es != [] {
      StepLockInv(s, es[0]);
      StepShared(s, es[0]);
      StepCurrentInv(s0, s, es[0]);
      RunCurrentInv(s0, Apply(s, es[0]), es[1..]);
    }
  }

  lemma StartsCurrent(s0: State)
    requires Init(s0)
    ensures CurrentInv(s0, s0)
  {
    forall x | x in s0.tokens ensures IsCurrent(s0, s0, x) {
    }
  }

  /**
   In every run without eviction, copies or not: a session for which no write-back is due holds the token its
   last successful exchange brought, or the one it started with.
   */
  lemma {:induction false} HoldsLatestToken(s0: State, es: seq<Event>, x: SessionId)
    requires Init(s0) && Exec(s0, es).Some? && NeverEvicts(s0, es) && x in s0.tokens
    ensures var s := Exec(s0, es).value;
            x in s.tokens && (!Pending(s, x) ==> s.tokens[x] == LatestToken(s0.tokens[x], s.log, s.tasks, x))
  {
    StartsCurrent(s0);
    RunCurrentInv(s0, s0, es);
    assert IsCurrent(s0, Exec(s0, es).value, x);
  }

  /** And in every run without eviction and without copies, a call submits exactly that token. */
  lemma {:induction false} SubmitsLatestToken(s0: State, es: seq<Event>, t: TaskId, o: Outcome)
    requires Init(s0) && DistinctTokens(s0) && Exec(s0, es).Some? && NeverEvicts(s0, es)
    requires Enabled(Exec(s0, es).value, Exchange(t, o)) && !o.NotSent?
    ensures var s := Exec(s0, es).value;
            var x := s.tasks[t].session;
            x in s0.tokens && s.tasks[t].pc.working == LatestToken(s0.tokens[x], s.log, s.tasks, x)
  {
    var s := Exec(s0, es).value;
    var x := s.tasks[t].session;
    RunInv(s0, es);
    StartsCurrent(s0);
    RunCurrentInv(s0, s0, es);
    assert IsCurrent(s0, s, x);
    forall u | u in s.tasks && s.tasks[u].pc.Exchanged? ensures s.tasks[u].session != x {
      AloneInSession(s, t, u);
    }
    assert !Pending(s, x);
  }
}
