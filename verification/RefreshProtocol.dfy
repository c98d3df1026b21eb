/**
 Interleaved runs of `refresh_shared_session` and `refresh_session`: any number of tasks, any number of
 sessions, one lock table. Every lock-guarded block of the source is one event; the scheduler picks the order.
 */
module RefreshProtocol {
  import opened Text
  import opened LockTable

  type Token = string
  type SessionId = nat
  type TaskId = nat

  /** How one token-endpoint exchange ends. */
  datatype Outcome =
    | NotSent                      // failed before a request left: no token endpoint, no connection
    | Rejected                     // the server refused and did not consume the token
    | Lost                         // the server consumed the token, the client ended with an error
    | Rotated(next: Option<Token>) // consumed, and the validated reply carried the next token

  /** Where a task stands; fields are its live local variables. An exclusive task has seen no token before it is inside. */
  datatype Pc =
    | Start
    | Observed(seen: Option<Token>)
    | Missed(seen: Option<Token>)
    | Waiting(seen: Option<Token>, lock: LockId)
    | Holding(seen: Option<Token>, lock: LockId)
    | Ready(rt: Token, lock: LockId, working: Option<Token>)
    | Exchanged(rt: Token, lock: LockId, next: Option<Token>)
    | Leaving(lock: LockId)
    | Dropping(lock: LockId)
    | Finished

  /** A call of `refresh_session`, which borrows its session until it returns, or of `refresh_shared_session`. */
  datatype Task = Task(session: SessionId, exclusive: bool, pc: Pc)

  /** One request that reached the server: who sent it, what it had observed, what it sent. */
  datatype Submission = Submission(task: TaskId, observed: Token, token: Token, outcome: Outcome)

  /** `owned` are the sessions callers pass to `refresh_session`, `borrowed` those such a call has now. */
  datatype State = State(
    subjects: map<SessionId, Subject>,
    owned: set<SessionId>,
    borrowed: set<SessionId>,
    tokens: map<SessionId, Option<Token>>,
    tasks: map<TaskId, Task>,
    locks: Table,
    nextLock: LockId,
    held: map<LockId, TaskId>,
    issued: set<Token>,
    log: seq<Submission>)

  datatype Event =
    | Spawn(task: TaskId, session: SessionId, exclusive: bool)
    | Observe(task: TaskId)
    | ReadLookup(task: TaskId)
    | WriteLookup(task: TaskId, victim: Subject)
    | Acquire(task: TaskId)
    | Reread(task: TaskId)
    | Exchange(task: TaskId, outcome: Outcome)
    | WriteBack(task: TaskId)
    | Release(task: TaskId)
    | DropClone(task: TaskId)

  /** Standings in which a clone of a mutex is owned. */
  predicate HasClone(pc: Pc) {
    pc.Waiting? || pc.Holding? || pc.Ready? || pc.Exchanged? || pc.Leaving? || pc.Dropping?
  }

  /** Standings in which the mutex guard is owned. */
  predicate InCritical(pc: Pc) {
    pc.Holding? || pc.Ready? || pc.Exchanged? || pc.Leaving?
  }

  function Referenced(s: State): set<LockId> {
    set t | t in s.tasks && HasClone(s.tasks[t].pc) :: s.tasks[t].pc.lock
  }

  ghost predicate WellFormed(s: State) {
    && (forall x :: x in s.tokens <==> x in s.subjects)
    && (forall t :: t in s.tasks ==> s.tasks[t].session in s.subjects)
  }

  function SubjectOf(s: State, t: TaskId): Subject
    requires t in s.tasks && s.tasks[t].session in s.subjects
  {
    s.subjects[s.tasks[t].session]
  }

  predicate At(s: State, t: TaskId) {
    && t in s.tasks && s.tasks[t].session in s.subjects && s.tasks[t].session in s.tokens
  }

  /** The session of `t` is not in the hands of another task. */
  predicate HasAccess(s: State, t: TaskId)
    requires t in s.tasks
  {
    s.tasks[t].exclusive || s.tasks[t].session !in s.borrowed
  }

  predicate Enabled(s: State, e: Event) {
    match e
    case Spawn(t, x, exclusive) =>
      && t !in s.tasks && x in s.subjects && x in s.tokens
      && (exclusive ==> x in s.owned && x !in s.borrowed)
    case Observe(t) => At(s, t) && s.tasks[t].pc.Start? && HasAccess(s, t)
    case ReadLookup(t) => At(s, t) && s.tasks[t].pc.Observed?
    case WriteLookup(t, victim) =>
      && At(s, t) && s.tasks[t].pc.Missed?
      && (MustEvict(s.locks, Referenced(s)) ==> victim in IdleSweep(s.locks, Referenced(s)))
    case Acquire(t) => At(s, t) && s.tasks[t].pc.Waiting? && s.tasks[t].pc.lock !in s.held
    case Reread(t) => At(s, t) && s.tasks[t].pc.Holding? && HasAccess(s, t)
    case Exchange(t, o) =>
      && At(s, t) && s.tasks[t].pc.Ready?
      && (s.tasks[t].pc.working.None? ==> o == NotSent)
      && (o.Rotated? && o.next.Some? ==> o.next.value !in s.issued)
    case WriteBack(t) => At(s, t) && s.tasks[t].pc.Exchanged? && HasAccess(s, t)
    case Release(t) => At(s, t) && s.tasks[t].pc.Leaving?
    case DropClone(t) => At(s, t) && s.tasks[t].pc.Dropping?
  }

  function Goto(s: State, t: TaskId, pc: Pc): State
    requires t in s.tasks
  {
    s.(tasks := s.tasks[t := s.tasks[t].(pc := pc)])
  }

  /**
   Inside with the session's current token: a shared task leaves if the token is no longer the one it saw,
   an exclusive one takes what its session holds and fails if that is nothing.
   */
  function AfterReread(pc: Pc, current: Option<Token>): Pc
    requires pc.Holding?
  {
    match pc.seen
    case Some(rt) =>
      if current.Some? && current.value != rt then Leaving(pc.lock) else Ready(rt, pc.lock, current)
    case None =>
      if current.Some? then Ready(current.value, pc.lock, current) else Leaving(pc.lock)
  }

  function Apply(s: State, e: Event): State
    requires Enabled(s, e)
  {
    match e
    case Spawn(t, x, exclusive) =>
      s.(tasks := s.tasks[t := Task(x, exclusive, Start)], borrowed := if exclusive then s.borrowed + {x} else s.borrowed)
    case Observe(t) =>
      var current := s.tokens[s.tasks[t].session];
      if s.tasks[t].exclusive then Goto(s, t, Observed(None))
      else if current.None? then Goto(s, t, Finished)
      else Goto(s, t, Observed(current))
    case ReadLookup(t) =>
      var seen, sub := s.tasks[t].pc.seen, SubjectOf(s, t);
      if sub in s.locks then Goto(s, t, Waiting(seen, s.locks[sub])) else Goto(s, t, Missed(seen))
    case WriteLookup(t, victim) =>
      var seen, sub := s.tasks[t].pc.seen, SubjectOf(s, t);
      if sub in s.locks then Goto(s, t, Waiting(seen, s.locks[sub]))
      else
        Goto(s, t, Waiting(seen, s.nextLock)).(
        locks := MakeRoom(s.locks, Referenced(s), victim)[sub := s.nextLock],
        nextLock := s.nextLock + 1)
    case Acquire(t) =>
      var pc := s.tasks[t].pc;
      Goto(s, t, Holding(pc.seen, pc.lock)).(held := s.held[pc.lock := t])
    case Reread(t) =>
      Goto(s, t, AfterReread(s.tasks[t].pc, s.tokens[s.tasks[t].session]))
    case Exchange(t, o) =>
      var pc := s.tasks[t].pc;
      var next := if o.Rotated? then Exchanged(pc.rt, pc.lock, o.next) else Leaving(pc.lock);
      var log := if o.NotSent? then s.log else s.log + [Submission(t, pc.rt, pc.working.value, o)];
      var issued := if o.Rotated? && o.next.Some? then s.issued + {o.next.value} else s.issued;
      Goto(s, t, next).(log := log, issued := issued)
    case WriteBack(t) =>
      var pc := s.tasks[t].pc;
      Goto(s, t, Leaving(pc.lock)).(tokens := s.tokens[s.tasks[t].session := pc.next])
    case Release(t) =>
      var lock := s.tasks[t].pc.lock;
      Goto(s, t, Dropping(lock)).(held := s.held - {lock})
    case DropClone(t) =>
      var rest := if s.tasks[t].exclusive then s.borrowed - {s.tasks[t].session} else s.borrowed;
      Goto(s, t, Finished).(borrowed := rest)
  }

  /** No task has started and the table is empty. */
  ghost predicate Init(s: State) {
    && WellFormed(s)
    && s.tasks == map[] && s.locks == map[] && s.held == map[] && s.log == [] && s.borrowed == {}
    && (forall x :: x in s.tokens && s.tokens[x].Some? ==> s.tokens[x].value in s.issued)
  }

  /** No session is a copy of another: no two hold the same refresh token. */
  ghost predicate DistinctTokens(s: State) {
    forall x, y :: x in s.tokens && y in s.tokens && s.tokens[x].Some? && s.tokens[x] == s.tokens[y] ==> x == y
  }

  /** The state after a schedule, if every event of it was possible when it came. */
  function Exec(s: State, es: seq<Event>): Option<State>
    decreases |es|
  {
    if es == [] then Some(s)
    else if Enabled(s, es[0]) then Exec(Apply(s, es[0]), es[1..])
    else None
  }

  /** The event inserts into a table whose 4096 entries are all in use. */
  predicate Evicts(s: State, e: Event) {
    && e.WriteLookup? && At(s, e.task) && SubjectOf(s, e.task) !in s.locks
    && MustEvict(s.locks, Referenced(s))
  }

  /** No event of the schedule evicts a mutex in use. */
  predicate NeverEvicts(s: State, es: seq<Event>)
    decreases |es|
  {
    es != [] && Enabled(s, es[0]) ==> !Evicts(s, es[0]) && NeverEvicts(Apply(s, es[0]), es[1..])
  }

  // ---------------------------------------------------------------------------------------------
  // Locks
  // ---------------------------------------------------------------------------------------------

  /** The table is bounded, maps subjects to distinct existing mutexes, and clones are of existing ones. */
  ghost predicate TableInv(s: State) {
    && |s.locks| <= MAX_TRACKED_REFRESH_SUBJECTS
    && (forall b :: b in s.locks ==> s.locks[b] < s.nextLock)
    && (forall b, c :: b in s.locks && c in s.locks && s.locks[b] == s.locks[c] ==> b == c)
    && (forall t :: t in s.tasks && HasClone(s.tasks[t].pc) ==> s.tasks[t].pc.lock < s.nextLock)
  }

  /** The recorded holders are exactly the tasks in the critical section. */
  ghost predicate HeldInv(s: State) {
    && (forall t :: t in s.tasks && InCritical(s.tasks[t].pc) ==>
                      s.tasks[t].pc.lock in s.held && s.held[s.tasks[t].pc.lock] == t)
    && (forall l :: l in s.held ==>
                      s.held[l] in s.tasks && InCritical(s.tasks[s.held[l]].pc) && s.tasks[s.held[l]].pc.lock == l)
  }

  /** Holds in every reachable state, evictions or not. */
  ghost predicate LockInv(s: State) {
    WellFormed(s) && TableInv(s) && HeldInv(s)
  }

  /** Every clone is a clone of the mutex the table holds for that task's subject. */
  ghost predicate Shared(s: State) {
    && WellFormed(s)
    && (forall t :: t in s.tasks && HasClone(s.tasks[t].pc) ==>
                      SubjectOf(s, t) in s.locks && s.locks[SubjectOf(s, t)] == s.tasks[t].pc.lock)
  }

  /** `s'` differs from `s` in the standing of one task, and in nothing `TableInv` or `Shared` looks at. */
  ghost predicate Moves(s: State, s': State, t: TaskId, pc: Pc) {
    && t in s'.tasks && s'.tasks == s.tasks[t := s'.tasks[t]] && s'.tasks[t].pc == pc
    && (t in s.tasks ==> s'.tasks[t].session == s.tasks[t].session && s'.tasks[t].exclusive == s.tasks[t].exclusive)
    && s'.subjects == s.subjects && s'.owned == s.owned && (forall x :: x in s'.tokens <==> x in s.tokens)
  }

  lemma WriteLookupMoves(s: State, t: TaskId, victim: Subject)
    requires Enabled(s, WriteLookup(t, victim))
    ensures var s' := Apply(s, WriteLookup(t, victim)); t in s'.tasks && Moves(s, s', t, s'.tasks[t].pc)
  {
  }

  lemma StepMoves(s: State, e: Event)
    requires Enabled(s, e)
    ensures e.task in Apply(s, e).tasks
    ensures Moves(s, Apply(s, e), e.task, Apply(s, e).tasks[e.task].pc)
  {
    if e.WriteLookup? {
      WriteLookupMoves(s, e.task, e.victim);
    }
  }

  lemma StepWellFormed(s: State, e: Event)
    requires WellFormed(s) && Enabled(s, e)
    ensures WellFormed(Apply(s, e))
  {
    StepMoves(s, e);
  }

  lemma MoveTableInv(s: State, s': State, t: TaskId, pc: Pc)
    requires TableInv(s) && Moves(s, s', t, pc) && s'.locks == s.locks && s'.nextLock == s.nextLock
    requires HasClone(pc) ==> pc.lock < s.nextLock
    ensures TableInv(s')
  {
  }

  /** `s'` is `s` after task `t` got a new mutex, entered under `sub` in what `room` kept of the table. */
  ghost predicate Inserts(s: State, s': State, t: TaskId, sub: Subject, room: Table) {
    && (forall b :: b in room ==> b in s.locks && s.locks[b] == room[b])
    && s'.locks == room[sub := s.nextLock] && s'.nextLock == s.nextLock + 1
    && t in s'.tasks && s'.tasks == s.tasks[t := s'.tasks[t]]
    && (HasClone(s'.tasks[t].pc) ==> s'.tasks[t].pc.lock == s.nextLock)
  }

  lemma InsertsTableInv(s: State, s': State, t: TaskId, sub: Subject, room: Table)
    requires TableInv(s) && Inserts(s, s', t, sub, room) && |room| < MAX_TRACKED_REFRESH_SUBJECTS
    ensures TableInv(s')
  {
    assert s'.locks.Keys == room.Keys + {sub};
  }

  lemma WriteLookupInserts(s: State, t: TaskId, victim: Subject)
    requires TableInv(s) && Enabled(s, WriteLookup(t, victim)) && SubjectOf(s, t) !in s.locks
    ensures Inserts(s, Apply(s, WriteLookup(t, victim)), t, SubjectOf(s, t), MakeRoom(s.locks, Referenced(s), victim))
  {
    MakeRoomKeepsReferenced(s.locks, Referenced(s), victim);
  }

  lemma InsertTableInv(s: State, t: TaskId, victim: Subject)
    requires TableInv(s) && Enabled(s, WriteLookup(t, victim)) && SubjectOf(s, t) !in s.locks
    ensures TableInv(Apply(s, WriteLookup(t, victim)))
  {
    MakeRoomKeepsReferenced(s.locks, Referenced(s), victim);
    WriteLookupInserts(s, t, victim);
    InsertsTableInv(s, Apply(s, WriteLookup(t, victim)), t, SubjectOf(s, t), MakeRoom(s.locks, Referenced(s), victim));
  }

  lemma StepTableInv(s: State, e: Event)
    requires TableInv(s) && Enabled(s, e)
    ensures TableInv(Apply(s, e))
  {
    if e.WriteLookup? && SubjectOf(s, e.task) !in s.locks {
      InsertTableInv(s, e.task, e.victim);
    } else {
      var s' := Apply(s, e);
      StepMoves(s, e);
      MoveTableInv(s, s', e.task, s'.tasks[e.task].pc);
    }
  }

  /** A task that neither takes nor gives back a mutex. */
  lemma MoveHeldInv(s: State, s': State, t: TaskId, pc: Pc)
    requires HeldInv(s) && Moves(s, s', t, pc) && s'.held == s.held
    requires InCritical(pc) <==> t in s.tasks && InCritical(s.tasks[t].pc)
    requires InCritical(pc) ==> pc.lock == s.tasks[t].pc.lock
    ensures HeldInv(s')
  {
  }

  lemma AcquireHeldInv(s: State, t: TaskId)
    requires HeldInv(s) && Enabled(s, Acquire(t))
    ensures HeldInv(Apply(s, Acquire(t)))
  {
  }

  lemma ReleaseHeldInv(s: State, t: TaskId)
    requires HeldInv(s) && Enabled(s, Release(t))
    ensures HeldInv(Apply(s, Release(t)))
  {
  }

  lemma StepHeldInv(s: State, e: Event)
    requires HeldInv(s) && Enabled(s, e)
    ensures HeldInv(Apply(s, e))
  {
    if e.Acquire? {
      AcquireHeldInv(s, e.task);
    } else if e.Release? {
      ReleaseHeldInv(s, e.task);
    } else {
      var s' := Apply(s, e);
      StepMoves(s, e);
      MoveHeldInv(s, s', e.task, s'.tasks[e.task].pc);
    }
  }

  lemma StepLockInv(s: State, e: Event)
    requires LockInv(s) && Enabled(s, e)
    ensures LockInv(Apply(s, e))
  {
    StepWellFormed(s, e);
    StepTableInv(s, e);
    StepHeldInv(s, e);
  }

  lemma MoveShared(s: State, s': State, t: TaskId, pc: Pc)
    requires Shared(s) && WellFormed(s') && Moves(s, s', t, pc) && s'.locks == s.locks
    requires HasClone(pc) ==> SubjectOf(s', t) in s.locks && s.locks[SubjectOf(s', t)] == pc.lock
    ensures Shared(s')
  {
  }

  lemma InsertShared(s: State, t: TaskId, victim: Subject)
    requires TableInv(s) && Shared(s) && Enabled(s, WriteLookup(t, victim)) && SubjectOf(s, t) !in s.locks
    requires !MustEvict(s.locks, Referenced(s))
    ensures Shared(Apply(s, WriteLookup(t, victim)))
  {
    MakeRoomKeepsReferenced(s.locks, Referenced(s), victim);
    assert forall u :: u in s.tasks && HasClone(s.tasks[u].pc) ==> s.tasks[u].pc.lock in Referenced(s);
  }

  /** Any clone task `t` has is of the mutex the table holds for its subject. */
  predicate CloneFrom(s: State, t: TaskId, locks: Table) {
    At(s, t) && (HasClone(s.tasks[t].pc) ==> SubjectOf(s, t) in locks && locks[SubjectOf(s, t)] == s.tasks[t].pc.lock)
  }

  lemma LookupClones(s: State, t: TaskId, victim: Subject)
    requires Enabled(s, WriteLookup(t, victim)) && SubjectOf(s, t) in s.locks
    ensures var s' := Apply(s, WriteLookup(t, victim)); s'.locks == s.locks && CloneFrom(s', t, s.locks)
  {
  }

  /** A step that inserts nothing leaves the table, and a clone it takes or keeps is the table's. */
  lemma ClonesFromTable(s: State, e: Event)
    requires Enabled(s, e) && (e.task in s.tasks ==> CloneFrom(s, e.task, s.locks))
    requires e.WriteLookup? ==> SubjectOf(s, e.task) in s.locks
    ensures Apply(s, e).locks == s.locks && CloneFrom(Apply(s, e), e.task, s.locks)
  {
    if e.WriteLookup? {
      LookupClones(s, e.task, e.victim);
    }
  }

  lemma StepShared(s: State, e: Event)
    requires LockInv(s) && Shared(s) && Enabled(s, e) && !Evicts(s, e)
    ensures Shared(Apply(s, e))
  {
    if e.WriteLookup? && SubjectOf(s, e.task) !in s.locks {
      InsertShared(s, e.task, e.victim);
    } else {
      StepMoves(s, e);
      StepWellFormed(s, e);
      ClonesFromTable(s, e);
      MoveShared(s, Apply(s, e), e.task, Apply(s, e).tasks[e.task].pc);
    }
  }

  /** Two tasks of one subject are never in the critical section together. */
  ghost predicate MutualExclusion(s: State) {
    && WellFormed(s)
    && (forall t, u ::
          t in s.tasks && u in s.tasks && InCritical(s.tasks[t].pc) && InCritical(s.tasks[u].pc) ==>
            SubjectOf(s, t) == SubjectOf(s, u) ==> t == u)
  }

  lemma SharedExcludes(s: State)
    requires LockInv(s) && Shared(s)
    ensures MutualExclusion(s)
  {
  }

  predicate Borrowing(task: Task) { task.exclusive && !task.pc.Finished? }

  /** An exclusive task has its session to itself until it is finished. */
  ghost predicate BorrowInv(s: State) {
    && (forall t :: t in s.tasks && Borrowing(s.tasks[t]) ==>
                      s.tasks[t].session in s.borrowed && s.tasks[t].session in s.owned)
    && (forall t, u ::
          t in s.tasks && u in s.tasks && Borrowing(s.tasks[t]) && Borrowing(s.tasks[u]) ==>
            s.tasks[t].session == s.tasks[u].session ==> t == u)
  }

  lemma WriteLookupBorrows(s: State, t: TaskId, victim: Subject)
    requires Enabled(s, WriteLookup(t, victim))
    ensures Apply(s, WriteLookup(t, victim)).borrowed == s.borrowed
  {
  }

  /** Only the start and the end of a call change what is borrowed, and a finished task stays finished. */
  lemma StepBorrows(s: State, e: Event)
    requires Enabled(s, e) && !e.Spawn? && !e.DropClone?
    ensures Apply(s, e).borrowed == s.borrowed && e.task in s.tasks && !s.tasks[e.task].pc.Finished?
  {
    if e.WriteLookup? {
      WriteLookupBorrows(s, e.task, e.victim);
    }
  }

  lemma StepBorrowInv(s: State, e: Event)
    requires BorrowInv(s) && Enabled(s, e)
    ensures BorrowInv(Apply(s, e))
  {
    StepMoves(s, e);
    if !e.Spawn? && !e.DropClone? {
      StepBorrows(s, e);
    }
  }

  /** Every step keeps the lock invariants; evictions aside, it keeps the sharing. */
  lemma {:induction false} RunLockInv(s: State, es: seq<Event>)
    requires LockInv(s) && Exec(s, es).Some?
    ensures LockInv(Exec(s, es).value)
    ensures Shared(s) && NeverEvicts(s, es) ==> Shared(Exec(s, es).value)
    decreases |es|
  {
    if es != [] {
      StepLockInv(s, es[0]);
      if Shared(s) && NeverEvicts(s, es) {
        StepShared(s, es[0]);
      }
      RunLockInv(Apply(s, es[0]), es[1..]);
    }
  }

  // ---------------------------------------------------------------------------------------------
  // Tokens
  // ---------------------------------------------------------------------------------------------

  /** Tokens whose exchange succeeded. */
  function RotatedTokens(log: seq<Submission>): set<Token> {
    if log == [] then {}
    else
      var last := log[|log| - 1];
      RotatedTokens(log[..|log| - 1]) + (if last.outcome.Rotated? then {last.token} else {})
  }

  /** Tokens the server consumed although the client saw an error. */
  function LostTokens(log: seq<Submission>): set<Token> {
    if log == [] then {}
    else
      var last := log[|log| - 1];
      LostTokens(log[..|log| - 1]) + (if last.outcome.Lost? then {last.token} else {})
  }

  /** Tokens the server has consumed. */
  function SpentTokens(log: seq<Submission>): set<Token> { RotatedTokens(log) + LostTokens(log) }

  lemma {:induction false} RotatedMember(log: seq<Submission>, i: nat)
    requires i < |log| && log[i].outcome.Rotated?
    ensures log[i].token in RotatedTokens(log)
  {
    if i < |log| - 1 {
      RotatedMember(log[..|log| - 1], i);
    }
  }

  /** Once an exchange of a token succeeded, that token is not submitted again. */
  ghost predicate NoReuse(log: seq<Submission>) {
    forall i, j :: 0 <= i < j < |log| && log[i].outcome.Rotated? ==> log[i].token != log[j].token
  }

  ghost predicate OnlyObserved(log: seq<Submission>) {
    forall i :: 0 <= i < |log| ==> log[i].token == log[i].observed
  }

  /** Some task of the session holds a rotated session it has not written back yet. */
  ghost predicate Pending(s: State, x: SessionId) {
    exists t :: t in s.tasks && s.tasks[t].session == x && s.tasks[t].pc.Exchanged?
  }

  /** Sessions hold distinct issued tokens, and a session holding a rotated one has a write-back pending. */
  ghost predicate SessionInv(s: State) {
    && DistinctTokens(s)
    && RotatedTokens(s.log) <= s.issued
    && (forall x :: x in s.tokens && s.tokens[x].Some? ==> s.tokens[x].value in s.issued)
    && (forall x :: x in s.tokens && s.tokens[x].Some? && s.tokens[x].value in RotatedTokens(s.log) ==> Pending(s, x))
  }

  /** A working copy is current, and holds the observed token if any. */
  ghost predicate ReadyInv(s: State) {
    forall t :: t in s.tasks && s.tasks[t].pc.Ready? ==>
                  && s.tasks[t].session in s.tokens
                  && s.tasks[t].pc.working == s.tokens[s.tasks[t].session]
                  && (s.tasks[t].pc.working.Some? ==> s.tasks[t].pc.working.value == s.tasks[t].pc.rt)
  }

  /** The token `k` is known to nobody but its receiver `t`. */
  ghost predicate Unpublished(s: State, t: TaskId, k: Token) {
    && k in s.issued && k !in RotatedTokens(s.log)
    && (forall x :: x in s.tokens ==> s.tokens[x] != Some(k))
    && (forall u :: u in s.tasks && u != t && s.tasks[u].pc.Exchanged? ==> s.tasks[u].pc.next != Some(k))
  }

  ghost predicate ExchangedInv(s: State) {
    forall t :: t in s.tasks && s.tasks[t].pc.Exchanged? ==>
                  && s.tasks[t].session in s.tokens
                  && s.tokens[s.tasks[t].session] == Some(s.tasks[t].pc.rt)
                  && (s.tasks[t].pc.next.Some? ==> Unpublished(s, t, s.tasks[t].pc.next.value))
  }

  ghost predicate TokenInv(s: State) {
    SessionInv(s) && ReadyInv(s) && ExchangedInv(s) && NoReuse(s.log) && OnlyObserved(s.log)
  }

  /** A step that leaves sessions and log alone and neither takes a working copy nor ends a write-back. */
  lemma MoveTokenInv(s: State, s': State, t: TaskId, pc: Pc)
    requires TokenInv(s) && Moves(s, s', t, pc)
    requires s'.tokens == s.tokens && s'.log == s.log && s'.issued == s.issued
    requires !pc.Exchanged? && (t in s.tasks ==> !s.tasks[t].pc.Exchanged?)
    requires pc.Ready? ==> s'.tasks[t].session in s.tokens && pc.working == s.tokens[s'.tasks[t].session]
    requires pc.Ready? && pc.working.Some? ==> pc.working.value == pc.rt
    ensures TokenInv(s')
  {
    forall x | x in s'.tokens && s'.tokens[x].Some? && s'.tokens[x].value in RotatedTokens(s'.log)
      ensures Pending(s', x)
    {
      var u :| u in s.tasks && s.tasks[u].session == x && s.tasks[u].pc.Exchanged?;
      assert u in s'.tasks && s'.tasks[u] == s.tasks[u];
    }
    assert forall u, k :: Unpublished(s, u, k) ==> Unpublished(s', u, k);
  }

  /** A working copy in hand is never of a rotated token: its write-back would be in the same critical section. */
  lemma WorkingNotRotated(s: State, t: TaskId)
    requires LockInv(s) && Shared(s) && TokenInv(s)
    requires At(s, t) && s.tasks[t].pc.Ready? && s.tasks[t].pc.working.Some?
    ensures s.tasks[t].pc.working.value !in RotatedTokens(s.log)
  {
    SharedExcludes(s);
    var x := s.tasks[t].session;
    forall u | u in s.tasks && s.tasks[u].pc.Exchanged? ensures s.tasks[u].session != x {
      assert InCritical(s.tasks[u].pc) && InCritical(s.tasks[t].pc) && u != t;
    }
    assert !Pending(s, x);
  }

  lemma {:induction false} LogGrows(log: seq<Submission>, e: Submission)
    requires NoReuse(log) && OnlyObserved(log)
    requires e.token !in RotatedTokens(log) && e.token == e.observed
    ensures NoReuse(log + [e]) && OnlyObserved(log + [e])
    ensures RotatedTokens(log + [e]) == RotatedTokens(log) + (if e.outcome.Rotated? then {e.token} else {})
  {
    assert (log + [e])[..|log|] == log;
    forall i | 0 <= i < |log| && log[i].outcome.Rotated?
      ensures log[i].token != e.token
    {
      RotatedMember(log, i);
    }
  }

  /** Recording a submission that did not rotate its token. */
  lemma LoggedTokenInv(s: State, e: Submission)
    requires TokenInv(s) && e.token !in RotatedTokens(s.log) && e.token == e.observed && !e.outcome.Rotated?
    ensures TokenInv(s.(log := s.log + [e]))
  {
    var s' := s.(log := s.log + [e]);
    LogGrows(s.log, e);
    assert forall x :: Pending(s, x) <==> Pending(s', x);
    assert forall u, k :: Unpublished(s, u, k) <==> Unpublished(s', u, k);
  }

  /** An exchange that ends in an error leaves the sessions as they were. */
  lemma FailedTokenInv(s: State, t: TaskId, o: Outcome)
    requires LockInv(s) && Shared(s) && TokenInv(s)
    requires Enabled(s, Exchange(t, o)) && !o.Rotated?
    ensures TokenInv(Apply(s, Exchange(t, o)))
  {
    var pc := s.tasks[t].pc;
    var left := Goto(s, t, Leaving(pc.lock));
    MoveTokenInv(s, left, t, Leaving(pc.lock));
    if !o.NotSent? {
      WorkingNotRotated(s, t);
      LoggedTokenInv(left, Submission(t, pc.rt, pc.working.value, o));
    }
  }

  /** `s'` is `s` after task `t` exchanged its working token for `next`. */
  ghost predicate Exchanges(s: State, s': State, t: TaskId, next: Option<Token>) {
    && t in s.tasks && s.tasks[t].pc.Ready? && s.tasks[t].session in s.tokens && s.tasks[t].pc.working.Some?
    && (next.Some? ==> next.value !in s.issued)
    && s'.tokens == s.tokens
    && s'.tasks == s.tasks[t := s.tasks[t].(pc := Exchanged(s.tasks[t].pc.rt, s.tasks[t].pc.lock, next))]
    && s'.issued == s.issued + (if next.Some? then {next.value} else {})
  }

  /** A successful exchange: the token joins the rotated ones and its write-back becomes pending. */
  lemma ExchangesSessionInv(s: State, s': State, t: TaskId, next: Option<Token>)
    requires SessionInv(s) && ReadyInv(s) && Exchanges(s, s', t, next)
    requires RotatedTokens(s'.log) == RotatedTokens(s.log) + {s.tasks[t].pc.rt}
    ensures SessionInv(s')
  {
    assert s'.tasks[t].pc.Exchanged? && Pending(s', s.tasks[t].session);
    forall y | y in s'.tokens && s'.tokens[y].Some? && s'.tokens[y].value in RotatedTokens(s'.log)
      ensures Pending(s', y)
    {
      if s.tokens[y].value in RotatedTokens(s.log) {
        var u :| u in s.tasks && s.tasks[u].session == y && s.tasks[u].pc.Exchanged?;
        assert u != t && s'.tasks[u] == s.tasks[u];
      }
    }
  }

  lemma ExchangesExchangedInv(s: State, s': State, t: TaskId, next: Option<Token>)
    requires SessionInv(s) && ReadyInv(s) && ExchangedInv(s) && Exchanges(s, s', t, next)
    requires RotatedTokens(s'.log) == RotatedTokens(s.log) + {s.tasks[t].pc.rt}
    ensures ExchangedInv(s')
  {
    forall u | u in s'.tasks && s'.tasks[u].pc.Exchanged? && s'.tasks[u].pc.next.Some?
      ensures Unpublished(s', u, s'.tasks[u].pc.next.value)
    {
      if u != t {
        assert s'.tasks[u] == s.tasks[u];
        assert Unpublished(s, u, s.tasks[u].pc.next.value);
        assert s.tokens[s.tasks[t].session] == Some(s.tasks[t].pc.rt);
      }
    }
  }

  lemma ApplyExchanges(s: State, t: TaskId, o: Outcome)
    requires Enabled(s, Exchange(t, o)) && o.Rotated?
    ensures var s', pc := Apply(s, Exchange(t, o)), s.tasks[t].pc;
            && Exchanges(s, s', t, o.next)
            && s'.log == s.log + [Submission(t, pc.rt, pc.working.value, o)]
  {
  }

  lemma ExchangesTokenInv(s: State, s': State, t: TaskId, next: Option<Token>)
    requires TokenInv(s) && Exchanges(s, s', t, next)
    requires RotatedTokens(s'.log) == RotatedTokens(s.log) + {s.tasks[t].pc.rt}
    requires NoReuse(s'.log) && OnlyObserved(s'.log)
    ensures TokenInv(s')
  {
    ExchangesSessionInv(s, s', t, next);
    ExchangesExchangedInv(s, s', t, next);
  }

  lemma RotatedTokenInv(s: State, t: TaskId, o: Outcome)
    requires LockInv(s) && Shared(s) && TokenInv(s)
    requires Enabled(s, Exchange(t, o)) && o.Rotated?
    ensures TokenInv(Apply(s, Exchange(t, o)))
  {
    var pc := s.tasks[t].pc;
    WorkingNotRotated(s, t);
    LogGrows(s.log, Submission(t, pc.rt, pc.working.value, o));
    ApplyExchanges(s, t, o);
    ExchangesTokenInv(s, Apply(s, Exchange(t, o)), t, o.next);
  }

  /** `s'` is `s` after task `t` wrote its rotated session back. */
  ghost predicate Writes(s: State, s': State, t: TaskId) {
    && t in s.tasks && s.tasks[t].pc.Exchanged?
    && s'.tokens == s.tokens[s.tasks[t].session := s.tasks[t].pc.next]
    && s'.tasks == s.tasks[t := s.tasks[t].(pc := Leaving(s.tasks[t].pc.lock))]
    && s'.issued == s.issued && s'.log == s.log
  }

  /** The write-back publishes the next token and settles the pending one. */
  lemma WritesTokenInv(s: State, s': State, t: TaskId)
    requires TokenInv(s) && Writes(s, s', t)
    requires forall u :: u in s.tasks && u != t && (s.tasks[u].pc.Exchanged? || s.tasks[u].pc.Ready?) ==>
                           s.tasks[u].session != s.tasks[t].session
    ensures TokenInv(s')
  {
    var x := s.tasks[t].session;
    forall y | y in s'.tokens && s'.tokens[y].Some? && s'.tokens[y].value in RotatedTokens(s'.log)
      ensures Pending(s', y)
    {
      assert y != x;
      var u :| u in s.tasks && s.tasks[u].session == y && s.tasks[u].pc.Exchanged?;
      assert u != t && s'.tasks[u] == s.tasks[u];
    }
    forall u | u in s'.tasks && s'.tasks[u].pc.Exchanged? && s'.tasks[u].pc.next.Some?
      ensures Unpublished(s', u, s'.tasks[u].pc.next.value)
    {
      assert Unpublished(s, u, s.tasks[u].pc.next.value);
    }
  }

  lemma WriteBackTokenInv(s: State, t: TaskId)
    requires LockInv(s) && Shared(s) && TokenInv(s)
    requires Enabled(s, WriteBack(t))
    ensures TokenInv(Apply(s, WriteBack(t)))
  {
    SharedExcludes(s);
    forall u | u in s.tasks && u != t && (s.tasks[u].pc.Exchanged? || s.tasks[u].pc.Ready?)
      ensures s.tasks[u].session != s.tasks[t].session
    {
      assert SubjectOf(s, t) != SubjectOf(s, u);
    }
    WritesTokenInv(s, Apply(s, WriteBack(t)), t);
  }

  /** Neither an exchange nor a write-back. */
  predicate IsQuiet(e: Event) { !e.Exchange? && !e.WriteBack? }

  /** The two states agree on everything the token invariants look at besides the tasks. */
  predicate SameTokens(s: State, s': State) { s'.tokens == s.tokens && s'.log == s.log && s'.issued == s.issued }

  lemma WriteLookupKeeps(s: State, t: TaskId, victim: Subject)
    requires Enabled(s, WriteLookup(t, victim))
    ensures SameTokens(s, Apply(s, WriteLookup(t, victim)))
  {
  }

  lemma QuietKeeps(s: State, e: Event)
    requires Enabled(s, e) && IsQuiet(e)
    ensures SameTokens(s, Apply(s, e))
  {
    if e.WriteLookup? {
      WriteLookupKeeps(s, e.task, e.victim);
    }
  }

  /** A quiet step of a task ends neither in a write-back due nor, but for a re-read, in a working copy. */
  lemma QuietStanding(s: State, e: Event)
    requires Enabled(s, e) && IsQuiet(e)
    ensures var s', t := Apply(s, e), e.task;
            && t in s'.tasks && !s'.tasks[t].pc.Exchanged? && (t in s.tasks ==> !s.tasks[t].pc.Exchanged?)
            && (s'.tasks[t].pc.Ready? ==> e.Reread?)
  {
  }

  lemma RereadStanding(s: State, t: TaskId)
    requires Enabled(s, Reread(t))
    ensures var s' := Apply(s, Reread(t));
            && t in s'.tasks
            && var x, pc := s'.tasks[t].session, s'.tasks[t].pc;
               pc.Ready? ==> x in s.tokens && pc.working == s.tokens[x] && (pc.working.Some? ==> pc.working.value == pc.rt)
  {
  }

  lemma QuietTokenInv(s: State, e: Event)
    requires TokenInv(s) && Enabled(s, e) && IsQuiet(e)
    ensures TokenInv(Apply(s, e))
  {
    StepMoves(s, e);
    QuietKeeps(s, e);
    QuietStanding(s, e);
    if e.Reread? {
      RereadStanding(s, e.task);
    }
    MoveTokenInv(s, Apply(s, e), e.task, Apply(s, e).tasks[e.task].pc);
  }

  lemma StepTokenInv(s: State, e: Event)
    requires LockInv(s) && Shared(s) && TokenInv(s) && Enabled(s, e)
    ensures TokenInv(Apply(s, e))
  {
    if IsQuiet(e) {
      QuietTokenInv(s, e);
    } else if e.WriteBack? {
      WriteBackTokenInv(s, e.task);
    } else if e.outcome.Rotated? {
      RotatedTokenInv(s, e.task, e.outcome);
    } else {
      FailedTokenInv(s, e.task, e.outcome);
    }
  }

  lemma {:induction false} RunInv(s: State, es: seq<Event>)
    requires LockInv(s) && Shared(s) && TokenInv(s) && Exec(s, es).Some? && NeverEvicts(s, es)
    ensures var s' := Exec(s, es).value; LockInv(s') && Shared(s') && TokenInv(s')
    decreases |es|
  {
    if es != [] {
      StepLockInv(s, es[0]);
      StepShared(s, es[0]);
      StepTokenInv(s, es[0]);
      RunInv(Apply(s, es[0]), es[1..]);
    }
  }

  // ---------------------------------------------------------------------------------------------
  // Main results
  // ---------------------------------------------------------------------------------------------

  /** Between `s` and `s'` the entry of `b` was dropped or replaced. */
  predicate Drops(s: State, s': State, b: Subject) {
    b in s.locks && !(b in s'.locks && s'.locks[b] == s.locks[b])
  }

  /** Only an eviction drops a mutex some task references, and it drops only its victim. */
  lemma DropsOnlyVictim(s: State, e: Event, b: Subject)
    requires TableInv(s) && Enabled(s, e) && b in s.locks && s.locks[b] in Referenced(s) && Drops(s, Apply(s, e), b)
    ensures Evicts(s, e) && b == e.victim
  {
    if e.WriteLookup? && SubjectOf(s, e.task) !in s.locks {
      MakeRoomKeepsReferenced(s.locks, Referenced(s), e.victim);
    }
  }

  /** In every run, evictions or not: the table stays bounded, and only an eviction drops a mutex in use. */
  lemma {:induction false} TableBounded(s0: State, es: seq<Event>, e: Event)
    requires Init(s0) && Exec(s0, es).Some? && Enabled(Exec(s0, es).value, e)
    ensures var s := Exec(s0, es).value;
            var s' := Apply(s, e);
            && |s.locks| <= 4096 && |s'.locks| <= 4096
            && (forall b :: b in s.locks && s.locks[b] in Referenced(s) && Drops(s, s', b) ==>
                              Evicts(s, e) && b == e.victim)
  {
    RunLockInv(s0, es);
    var s := Exec(s0, es).value;
    StepTableInv(s, e);
    forall b | b in s.locks && s.locks[b] in Referenced(s) && Drops(s, Apply(s, e), b)
      ensures Evicts(s, e) && b == e.victim
    {
      DropsOnlyVictim(s, e, b);
    }
  }

  /** Per-subject mutual exclusion in every run that never evicts a mutex in use. */
  lemma {:induction false} RefreshIsExclusive(s0: State, es: seq<Event>)
    requires Init(s0) && Exec(s0, es).Some? && NeverEvicts(s0, es)
    ensures MutualExclusion(Exec(s0, es).value)
  {
    RunLockInv(s0, es);
    SharedExcludes(Exec(s0, es).value);
  }

  /** Tasks that observed the same token cause at most one successful exchange between them. */
  ghost predicate OneSuccessPerToken(log: seq<Submission>) {
    forall i, j :: 0 <= i < j < |log| && log[i].outcome.Rotated? && log[j].outcome.Rotated? ==>
                     log[i].observed != log[j].observed
  }

  /** In such a run of distinct sessions a task submits only what it observed, and a rotated token is never submitted again. */
  lemma {:induction false} RefreshIsSingleUse(s0: State, es: seq<Event>)
    requires Init(s0) && DistinctTokens(s0) && Exec(s0, es).Some? && NeverEvicts(s0, es)
    ensures var log := Exec(s0, es).value.log; NoReuse(log) && OnlyObserved(log) && OneSuccessPerToken(log)
  {
    RunInv(s0, es);
  }

  /** A token about to be submitted is already spent exactly when an earlier reply for it was lost. */
  lemma {:induction false} ResubmitsOnlyLost(s0: State, es: seq<Event>, t: TaskId, o: Outcome)
    requires Init(s0) && DistinctTokens(s0) && Exec(s0, es).Some? && NeverEvicts(s0, es)
    requires Enabled(Exec(s0, es).value, Exchange(t, o)) && !o.NotSent?
    ensures var s := Exec(s0, es).value;
            s.tasks[t].pc.working.value in SpentTokens(s.log) <==> s.tasks[t].pc.working.value in LostTokens(s.log)
  {
    RunInv(s0, es);
    WorkingNotRotated(Exec(s0, es).value, t);
  }

  /** Subjects with a refresh under way. */
  function BusySubjects(s: State): set<Subject> {
    set t | t in s.tasks && At(s, t) && !s.tasks[t].pc.Start? && !s.tasks[t].pc.Finished? :: SubjectOf(s, t)
  }

  /** At no point of the schedule are more than 4096 subjects being refreshed at once. */
  predicate FewBusy(s: State, es: seq<Event>)
    decreases |es|
  {
    && |BusySubjects(s)| <= MAX_TRACKED_REFRESH_SUBJECTS
    && (es != [] && Enabled(s, es[0]) ==> FewBusy(Apply(s, es[0]), es[1..]))
  }

  /** What the idle sweep keeps belongs to subjects being refreshed. */
  lemma SweptIsBusy(s: State, b: Subject)
    requires LockInv(s) && Shared(s) && b in IdleSweep(s.locks, Referenced(s))
    ensures b in BusySubjects(s)
  {
    var t :| t in s.tasks && HasClone(s.tasks[t].pc) && s.tasks[t].pc.lock == s.locks[b];
    assert SubjectOf(s, t) == b && At(s, t);
  }

  /** An eviction takes more than 4096 subjects being refreshed at once. */
  lemma EvictionTakesCrowd(s: State, e: Event)
    requires LockInv(s) && Shared(s) && Enabled(s, e) && Evicts(s, e)
    ensures |BusySubjects(s)| > MAX_TRACKED_REFRESH_SUBJECTS
  {
    var swept := IdleSweep(s.locks, Referenced(s));
    var sub := SubjectOf(s, e.task);
    forall b | b in swept ensures b in BusySubjects(s) {
      SweptIsBusy(s, b);
    }
    assert sub in BusySubjects(s) && sub !in swept;
    SubsetSize(swept.Keys + {sub}, BusySubjects(s));
  }

  /** Up to 4096 subjects in flight at a time, no mutex in use is ever evicted. */
  lemma {:induction false} FewBusyNeverEvicts(s: State, es: seq<Event>)
    requires LockInv(s) && Shared(s) && FewBusy(s, es)
    ensures NeverEvicts(s, es)
    decreases |es|
  {
    if es != [] && Enabled(s, es[0]) {
      if Evicts(s, es[0]) {
        EvictionTakesCrowd(s, es[0]);
      }
      StepLockInv(s, es[0]);
      StepShared(s, es[0]);
      FewBusyNeverEvicts(Apply(s, es[0]), es[1..]);
    }
  }

  /** The protocol's promise in caller's terms: with at most 4096 subjects in flight, both guarantees hold. */
  lemma {:induction false} SingleFlight(s0: State, es: seq<Event>)
    requires Init(s0) && Exec(s0, es).Some? && FewBusy(s0, es)
    ensures MutualExclusion(Exec(s0, es).value)
    ensures var log := Exec(s0, es).value.log;
            DistinctTokens(s0) ==> NoReuse(log) && OnlyObserved(log) && OneSuccessPerToken(log)
  {
    FewBusyNeverEvicts(s0, es);
    RefreshIsExclusive(s0, es);
    if DistinctTokens(s0) {
      RefreshIsSingleUse(s0, es);
    }
  }
}
