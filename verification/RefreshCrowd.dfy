/**
 How many subjects the refresh guarantees bear: exactly 4096. A start with more of them lets two tasks of
 one subject into the critical section together, and lets a rotated token be submitted again.
 */
module RefreshCrowd {
  import opened Text
  import opened LockTable
  import Shards
  import opened RefreshProtocol
  import opened RefreshLimits

  /** The session can be refreshed: it holds a token, or its owner calls `refresh_session` on it anyway. */
  predicate CanRefresh(s: State, x: SessionId) {
    x in s.subjects && x in s.tokens && (s.tokens[x].Some? || x in s.owned)
  }

  /** The subjects some session of which can be refreshed. */
  function CallerSubjects(s: State): set<Subject> {
    set x | x in s.tokens && CanRefresh(s, x) :: s.subjects[x]
  }

  // ---------------------------------------------------------------------------------------------
  // Only sessions that could be refreshed at the start ever are
  // ---------------------------------------------------------------------------------------------

  predicate IsBusy(pc: Pc) { !pc.Start? && !pc.Finished? }

  /** Tokens, and tasks under way, are of sessions that could be refreshed at the start. */
  ghost predicate Sourced(s0: State, s: State) {
    && s.subjects == s0.subjects && s.owned == s0.owned && s.tokens.Keys == s0.tokens.Keys
    && (forall x :: x in s.tokens && s.tokens[x].Some? ==> CanRefresh(s0, x))
    && (forall t :: t in s.tasks && (IsBusy(s.tasks[t].pc) || s.tasks[t].exclusive) ==> CanRefresh(s0, s.tasks[t].session))
  }

  lemma MoveSourced(s0: State, s: State, s': State, t: TaskId, pc: Pc)
    requires Sourced(s0, s) && Moves(s, s', t, pc)
    requires IsBusy(pc) || s'.tasks[t].exclusive ==> CanRefresh(s0, s'.tasks[t].session)
    requires forall x :: x in s'.tokens && s'.tokens[x].Some? ==> CanRefresh(s0, x)
    ensures Sourced(s0, s')
  {
  }

  /** Only an observed token, or owning the session, makes a task busy. */
  lemma BecomesBusy(s: State, e: Event)
    requires Enabled(s, e)
    ensures var s', t := Apply(s, e), e.task;
            && t in s'.tasks
            && (IsBusy(s'.tasks[t].pc) ==>
                  && t in s.tasks && s'.tasks[t].session == s.tasks[t].session
                  && (IsBusy(s.tasks[t].pc) || s.tasks[t].exclusive || HasToken(s, s.tasks[t].session)))
  {
    if e.WriteLookup? {
      WriteLookupMoves(s, e.task, e.victim);
    }
  }

  /** Only a write-back changes a session, and only that of a busy task. */
  lemma WritesBusy(s: State, e: Event, x: SessionId)
    requires Enabled(s, e) && x in Apply(s, e).tokens && Apply(s, e).tokens[x].Some?
    ensures || (x in s.tokens && s.tokens[x].Some?)
            || (e.task in s.tasks && IsBusy(s.tasks[e.task].pc) && s.tasks[e.task].session == x)
  {
    if e.WriteLookup? {
      WriteLookupKeeps(s, e.task, e.victim);
    }
  }

  lemma StepSourced(s0: State, s: State, e: Event)
    requires Sourced(s0, s) && Enabled(s, e)
    ensures Sourced(s0, Apply(s, e))
  {
    StepMoves(s, e);
    BecomesBusy(s, e);
    forall x | x in Apply(s, e).tokens && Apply(s, e).tokens[x].Some? ensures CanRefresh(s0, x) {
      WritesBusy(s, e, x);
    }
    MoveSourced(s0, s, Apply(s, e), e.task, Apply(s, e).tasks[e.task].pc);
  }

  lemma BusyCouldRefresh(s0: State, s: State)
    requires Sourced(s0, s)
    ensures BusySubjects(s) <= CallerSubjects(s0)
  {
  }

  lemma {:induction false} FewSubjectsFewBusy(s0: State, s: State, es: seq<Event>)
    requires Sourced(s0, s) && |CallerSubjects(s0)| <= FULL
    ensures FewBusy(s, es)
    decreases |es|
  {
    BusyCouldRefresh(s0, s);
    SubsetSize(BusySubjects(s), CallerSubjects(s0));
    if es != [] && Enabled(s, es[0]) {
      StepSourced(s0, s, es[0]);
      FewSubjectsFewBusy(s0, Apply(s, es[0]), es[1..]);
    }
  }

  // ---------------------------------------------------------------------------------------------
  // A queue of 4096 tasks
  // ---------------------------------------------------------------------------------------------

  /** Callers of distinct subjects. */
  ghost predicate IsCrowd(s0: State, cs: seq<Caller>) {
    && (forall i :: 0 <= i < |cs| ==> CanCall(s0, cs[i]))
    && (forall i, j :: 0 <= i < j < |cs| ==> s0.subjects[cs[i].session] != s0.subjects[cs[j].session])
  }

  ghost predicate AllDistinct(names: seq<Subject>) {
    forall i, j :: 0 <= i < j < |names| ==> names[i] != names[j]
  }

  /** Somebody to refresh a session of the subject. */
  lemma PickCaller(s0: State, b: Subject) returns (c: Caller)
    requires b in CallerSubjects(s0)
    ensures CanCall(s0, c) && s0.subjects[c.session] == b
  {
    var x :| x in s0.tokens && CanRefresh(s0, x) && s0.subjects[x] == b;
    c := Caller(x, x in s0.owned);
  }

  /** A crowd with exactly the subjects `subs`, after the caller `c` of another. */
  lemma {:induction false} PickCrowd(s0: State, c: Caller, subs: set<Subject>) returns (cs: seq<Caller>)
    requires CanCall(s0, c) && subs <= CallerSubjects(s0) && s0.subjects[c.session] !in subs
    ensures IsCrowd(s0, cs) && |cs| == |subs| + 1 && cs[0] == c
    ensures forall i :: 1 <= i < |cs| ==> s0.subjects[cs[i].session] in subs
    decreases |subs|
  {
    if subs == {} {
      cs := [c];
    } else {
      var b :| b in subs;
      var last := PickCaller(s0, b);
      var rest := PickCrowd(s0, c, subs - {b});
      cs := rest + [last];
    }
  }

  /** The sessions the first `k` callers borrow. */
  ghost function BorrowedBy(cs: seq<Caller>, k: nat): set<SessionId>
    requires k <= |cs|
  {
    if k == 0 then {} else BorrowedBy(cs, k - 1) + if cs[k - 1].exclusive then {cs[k - 1].session} else {}
  }

  lemma {:induction false} NotBorrowed(cs: seq<Caller>, k: nat, x: SessionId)
    requires k <= |cs| && forall i :: 0 <= i < k ==> cs[i].exclusive ==> cs[i].session != x
    ensures x !in BorrowedBy(cs, k)
  {
    if k > 0 {
      NotBorrowed(cs, k - 1, x);
    }
  }

  /** Reached from `s0` with its sessions, and nothing sent yet. */
  ghost predicate InCrowd(s0: State, s: State) {
    && Reaches(s0, s) && s.subjects == s0.subjects && s.owned == s0.owned && s.tokens == s0.tokens
    && s.log == [] && s.issued == s0.issued
  }

  /** The crowd, its subjects in order, and the standing each of its tasks takes up. */
  datatype Line = Line(callers: seq<Caller>, names: seq<Subject>, tasks: seq<Task>)

  /** The task of `c` waiting on `lock`. */
  function WaitingTask(s0: State, c: Caller, lock: LockId): Task
    requires CanCall(s0, c)
  {
    Task(c.session, c.exclusive, Waiting(Seen(s0, c), lock))
  }

  ghost function LineOf(s0: State, cs: seq<Caller>): (line: Line)
    requires IsCrowd(s0, cs)
    ensures line.callers == cs && |line.names| == |line.tasks| == |cs| && AllDistinct(line.names)
    ensures forall i :: 0 <= i < |cs| ==> line.names[i] == s0.subjects[cs[i].session]
    ensures forall i :: 0 <= i < |cs| ==> line.tasks[i] == WaitingTask(s0, cs[i], s0.nextLock + i)
  {
    Line(cs, seq(|cs|, i requires 0 <= i < |cs| => s0.subjects[cs[i].session]),
         seq(|cs|, i requires 0 <= i < |cs| => WaitingTask(s0, cs[i], s0.nextLock + i)))
  }

  /** The first `k` of the line, each under its place in it. */
  ghost function TasksOf(line: seq<Task>, k: nat): map<TaskId, Task>
    requires k <= |line|
  {
    if k == 0 then map[] else TasksOf(line, k - 1)[k - 1 := line[k - 1]]
  }

  /** The first `k` names, with mutexes numbered from `base`. */
  ghost function TableOf(names: seq<Subject>, base: LockId, k: nat): Table
    requires k <= |names|
  {
    if k == 0 then map[] else TableOf(names, base, k - 1)[names[k - 1] := base + k - 1]
  }

  /** The first `k` of the line each wait on the mutex of their own subject. */
  ghost predicate Queued(line: Line, base: LockId, s: State, k: nat)
    requires k <= |line.callers| == |line.names| == |line.tasks|
  {
    && s.tasks == TasksOf(line.tasks, k) && s.locks == TableOf(line.names, base, k) && s.nextLock == base + k
    && s.held == map[] && s.borrowed == BorrowedBy(line.callers, k)
  }

  lemma {:induction false} TaskAt(line: seq<Task>, k: nat, t: TaskId)
    requires k <= |line|
    ensures t in TasksOf(line, k) <==> t < k
    ensures t < k ==> TasksOf(line, k)[t] == line[t]
    decreases k
  {
    if k > 0 {
      TaskAt(line, k - 1, t);
    }
  }

  lemma {:induction false} EntryAt(names: seq<Subject>, base: LockId, k: nat, i: nat)
    requires AllDistinct(names) && k <= |names| && i < |names|
    ensures names[i] in TableOf(names, base, k) <==> i < k
    ensures i < k ==> TableOf(names, base, k)[names[i]] == base + i
    decreases k
  {
    if k > 0 {
      EntryAt(names, base, k - 1, i);
      assert i < k - 1 ==> names[i] != names[k - 1];
      assert i > k - 1 ==> names[i] != names[k - 1];
    }
  }

  lemma {:induction false} EntryOf(names: seq<Subject>, base: LockId, k: nat, b: Subject) returns (i: nat)
    requires k <= |names| && b in TableOf(names, base, k)
    ensures i < k && names[i] == b && TableOf(names, base, k)[b] == base + i
    decreases k
  {
    if b == names[k - 1] {
      i := k - 1;
    } else {
      i := EntryOf(names, base, k - 1, b);
    }
  }

  lemma {:induction false} TableSize(names: seq<Subject>, base: LockId, k: nat)
    requires AllDistinct(names) && k <= |names|
    ensures |TableOf(names, base, k)| == k
    decreases k
  {
    if k > 0 {
      TableSize(names, base, k - 1);
      EntryAt(names, base, k - 1, k - 1);
      Shards.InsertSize(TableOf(names, base, k - 1), names[k - 1], base + k - 1);
    }
  }

  lemma ArrivedInCrowd(s0: State, s: State, t: TaskId, c: Caller, victim: Subject)
    requires InCrowd(s0, s) && t !in s.tasks && CanCall(s0, c) && c.session !in s.borrowed
    requires s0.subjects[c.session] !in s.locks
    requires MustEvict(s.locks, Referenced(s)) ==> victim in IdleSweep(s.locks, Referenced(s))
    ensures InCrowd(s0, Arrived(s, t, c, victim))
  {
    Arrives(s0, s, t, c, victim);
  }

  /** An arrival while there is room. */
  lemma ArriveWithRoom(s0: State, s: State, t: TaskId, c: Caller) returns (s': State)
    requires InCrowd(s0, s) && t !in s.tasks && CanCall(s0, c) && c.session !in s.borrowed
    requires s0.subjects[c.session] !in s.locks && |s.locks| < FULL
    ensures InCrowd(s0, s') && s'.held == s.held && s'.nextLock == s.nextLock + 1 && s'.borrowed == Borrows(s, c)
    ensures s'.tasks == s.tasks[t := WaitingTask(s0, c, s.nextLock)]
    ensures s'.locks == s.locks[s0.subjects[c.session] := s.nextLock]
  {
    ArrivedInCrowd(s0, s, t, c, "");
    s' := Arrived(s, t, c, "");
  }

  lemma HasRoom(line: Line, base: LockId, s: State, i: nat)
    requires i < |line.callers| == |line.names| == |line.tasks| && AllDistinct(line.names) && Queued(line, base, s, i)
    ensures i !in s.tasks && line.names[i] !in s.locks && |s.locks| == i
  {
    TaskAt(line.tasks, i, i);
    EntryAt(line.names, base, i, i);
    TableSize(line.names, base, i);
  }

  lemma QueuedOneMore(line: Line, base: LockId, s: State, s': State, i: nat)
    requires i < |line.callers| == |line.names| == |line.tasks| && Queued(line, base, s, i)
    requires s'.tasks == s.tasks[i := line.tasks[i]] && s'.locks == s.locks[line.names[i] := base + i]
    requires s'.nextLock == base + i + 1 && s'.held == s.held && s'.borrowed == Borrows(s, line.callers[i])
    ensures Queued(line, base, s', i + 1)
  {
  }

  lemma QueueOne(s0: State, line: Line, s: State, i: nat, c: Caller) returns (s': State)
    requires i < |line.callers| == |line.names| == |line.tasks| && i < FULL && AllDistinct(line.names)
    requires InCrowd(s0, s) && Queued(line, s0.nextLock, s, i) && CanCall(s0, c) && c.session !in s.borrowed
    requires line.callers[i] == c && line.names[i] == s0.subjects[c.session]
    requires line.tasks[i] == WaitingTask(s0, c, s0.nextLock + i)
    ensures InCrowd(s0, s') && Queued(line, s0.nextLock, s', i + 1)
  {
    HasRoom(line, s0.nextLock, s, i);
    s' := ArriveWithRoom(s0, s, i, c);
    QueuedOneMore(line, s0.nextLock, s, s', i);
  }

  /** The first `k` callers have arrived and nothing else has happened. */
  ghost predicate InLine(s0: State, cs: seq<Caller>, s: State, k: nat) {
    IsCrowd(s0, cs) && k <= |cs| && InCrowd(s0, s) && Queued(LineOf(s0, cs), s0.nextLock, s, k)
  }

  lemma QueueNone(s0: State, cs: seq<Caller>)
    requires Init(s0) && IsCrowd(s0, cs)
    ensures InLine(s0, cs, s0, 0)
  {
    ReachesSelf(s0);
  }

  /** No caller's session is borrowed by those before it. */
  lemma {:induction false} OwnSession(s0: State, cs: seq<Caller>, k: nat)
    requires IsCrowd(s0, cs) && k < |cs|
    ensures cs[k].session !in BorrowedBy(cs, k)
  {
    NotBorrowed(cs, k, cs[k].session);
  }

  lemma QueueNext(s0: State, cs: seq<Caller>, s: State, i: nat) returns (s': State)
    requires i < |cs| && i < FULL && InLine(s0, cs, s, i)
    ensures InLine(s0, cs, s', i + 1)
  {
    var line, c := LineOf(s0, cs), cs[i];
    OwnSession(s0, cs, i);
    assert CanCall(s0, c) && line.names[i] == s0.subjects[c.session];
    s' := QueueOne(s0, line, s, i, c);
  }

  lemma QueueAll(s0: State, cs: seq<Caller>, k: nat) returns (s: State)
    requires Init(s0) && IsCrowd(s0, cs) && k <= |cs| && k <= FULL
    ensures InLine(s0, cs, s, k)
  {
    s := s0;
    QueueNone(s0, cs);
    for i := 0 to k
      invariant InLine(s0, cs, s, i)
    {
      s := QueueNext(s0, cs, s, i);
    }
  }

  // ---------------------------------------------------------------------------------------------
  // One more
  // ---------------------------------------------------------------------------------------------

  /** Every entry of the table is in use. */
  ghost predicate AllInUse(s: State) {
    forall b :: b in s.locks ==> s.locks[b] in Referenced(s)
  }

  lemma AllInUseMustEvict(s: State)
    requires AllInUse(s) && |s.locks| == FULL
    ensures IdleSweep(s.locks, Referenced(s)) == s.locks && MustEvict(s.locks, Referenced(s))
  {
    assert IdleSweep(s.locks, Referenced(s)) == s.locks;
  }

  /** The table after `victim` gave way to `sub`. */
  function Replaced(locks: Table, victim: Subject, sub: Subject, lock: LockId): Table {
    (locks - {victim})[sub := lock]
  }

  lemma ReplacedSize(locks: Table, victim: Subject, sub: Subject, lock: LockId)
    requires victim in locks && sub !in locks
    ensures |Replaced(locks, victim, sub, lock)| == |locks|
  {
    var room := locks - {victim};
    assert room.Keys == locks.Keys - {victim} && Replaced(locks, victim, sub, lock).Keys == room.Keys + {sub};
  }

  lemma StaysInUse(s: State, s': State, t: TaskId, task: Task, victim: Subject, sub: Subject)
    requires AllInUse(s) && t !in s.tasks && HasClone(task.pc) && task.pc.lock == s.nextLock
    requires s'.tasks == s.tasks[t := task] && s'.locks == Replaced(s.locks, victim, sub, s.nextLock)
    ensures AllInUse(s')
  {
    forall b | b in s'.locks ensures s'.locks[b] in Referenced(s') {
      if b == sub {
        assert s'.tasks[t].pc.lock == s.nextLock;
      } else {
        var u :| u in s.tasks && HasClone(s.tasks[u].pc) && s.tasks[u].pc.lock == s.locks[b];
        assert u in s'.tasks && s'.tasks[u] == s.tasks[u];
      }
    }
  }

  /** One more subject arrives at a table in full use: `victim` loses its entry, the table stays in full use. */
  lemma ArriveAtFull(s0: State, s: State, t: TaskId, c: Caller, victim: Subject)
    requires InCrowd(s0, s) && AllInUse(s) && |s.locks| == FULL
    requires t !in s.tasks && CanCall(s0, c) && c.session !in s.borrowed
    requires s0.subjects[c.session] !in s.locks && victim in s.locks
    ensures var s' := Arrived(s, t, c, victim);
            && InCrowd(s0, s') && AllInUse(s') && |s'.locks| == FULL
            && s'.locks == Replaced(s.locks, victim, s0.subjects[c.session], s.nextLock)
            && s'.tasks == s.tasks[t := WaitingTask(s0, c, s.nextLock)]
            && s'.held == s.held && s'.nextLock == s.nextLock + 1 && s'.borrowed == Borrows(s, c)
  {
    AllInUseMustEvict(s);
    ArrivedInCrowd(s0, s, t, c, victim);
    ReplacedSize(s.locks, victim, s0.subjects[c.session], s.nextLock);
    StaysInUse(s, Arrived(s, t, c, victim), t, WaitingTask(s0, c, s.nextLock), victim, s0.subjects[c.session]);
  }

  lemma QueueInUse(s0: State, cs: seq<Caller>, s: State)
    requires InLine(s0, cs, s, FULL)
    ensures AllInUse(s)
  {
    var line := LineOf(s0, cs);
    forall b | b in s.locks ensures s.locks[b] in Referenced(s) {
      var i := EntryOf(line.names, s0.nextLock, FULL, b);
      TaskAt(line.tasks, FULL, i);
      assert i in s.tasks && HasClone(s.tasks[i].pc) && s.tasks[i].pc.lock == s.locks[b];
    }
  }

  /** A step of a task that keeps its clone keeps every entry in use. */
  lemma KeepsInUse(s: State, s': State, t: TaskId, pc: Pc)
    requires AllInUse(s) && t in s.tasks && HasClone(s.tasks[t].pc) && HasClone(pc) && pc.lock == s.tasks[t].pc.lock
    requires s'.locks == s.locks && s'.tasks == s.tasks[t := s.tasks[t].(pc := pc)]
    ensures AllInUse(s')
  {
    forall b | b in s'.locks ensures s'.locks[b] in Referenced(s') {
      var u :| u in s.tasks && HasClone(s.tasks[u].pc) && s.tasks[u].pc.lock == s.locks[b];
      assert u in s'.tasks && HasClone(s'.tasks[u].pc) && s'.tasks[u].pc.lock == s.locks[b];
    }
  }

  /** A waiting task takes a free mutex. */
  lemma Enters(s0: State, s: State, t: TaskId)
    requires InCrowd(s0, s) && AllInUse(s) && At(s, t) && s.tasks[t].pc.Waiting? && s.tasks[t].pc.lock !in s.held
    ensures Enabled(s, Acquire(t))
    ensures var s1, task := Apply(s, Acquire(t)), s.tasks[t];
            && InCrowd(s0, s1) && AllInUse(s1) && s1.locks == s.locks && s1.nextLock == s.nextLock
            && s1.tasks == s.tasks[t := task.(pc := Holding(task.pc.seen, task.pc.lock))]
            && s1.held == s.held[task.pc.lock := t] && s1.borrowed == s.borrowed
  {
    ReachesStep(s0, s, Acquire(t));
    KeepsInUse(s, Apply(s, Acquire(t)), t, Holding(s.tasks[t].pc.seen, s.tasks[t].pc.lock));
  }

  /** Task `t` is the call of `c`, inside with what it saw before. */
  ghost predicate Inside(s0: State, s: State, t: TaskId, c: Caller) {
    && CanCall(s0, c) && At(s, t) && s.tasks[t].session == c.session && s.tasks[t].exclusive == c.exclusive
    && s.tasks[t].pc.Holding? && s.tasks[t].pc.seen == Seen(s0, c)
  }

  /** A full table in full use, with task 0 waiting for `c`. */
  ghost predicate FullHouse(s0: State, s: State, c: Caller, lock: LockId) {
    && InCrowd(s0, s) && AllInUse(s) && |s.locks| == FULL && CanCall(s0, c)
    && 0 in s.tasks && s.tasks[0] == WaitingTask(s0, c, lock) && s.held == map[] && lock < s.nextLock
  }

  /** The same with task 0 inside. */
  ghost predicate OneInside(s0: State, s: State, c: Caller, lock: LockId) {
    && InCrowd(s0, s) && AllInUse(s) && |s.locks| == FULL
    && Inside(s0, s, 0, c) && s.held == map[lock := 0] && lock < s.nextLock
  }

  /** Task 0 of the full queue enters the critical section. */
  lemma FirstEnters(s0: State, s: State, c: Caller, lock: LockId) returns (s1: State)
    requires FullHouse(s0, s, c, lock)
    ensures OneInside(s0, s1, c, lock) && s1.locks == s.locks && s1.tasks.Keys == s.tasks.Keys && s1.borrowed == s.borrowed
  {
    Enters(s0, s, 0);
    s1 := Apply(s, Acquire(0));
  }

  /** A further caller arrives and takes the place of `victim`. */
  lemma AnotherArrives(s0: State, s: State, t: TaskId, c: Caller, d: Caller, victim: Subject, lock: LockId)
      returns (s': State)
    requires OneInside(s0, s, c, lock) && CanCall(s0, d) && d.session !in s.borrowed && t != 0 && t !in s.tasks
    requires victim in s.locks && s0.subjects[d.session] !in s.locks
    ensures OneInside(s0, s', c, lock) && s'.locks == Replaced(s.locks, victim, s0.subjects[d.session], s.nextLock)
    ensures s'.tasks == s.tasks[t := WaitingTask(s0, d, s.nextLock)] && s.nextLock !in s'.held
    ensures s'.borrowed == Borrows(s, d)
  {
    ArriveAtFull(s0, s, t, d, victim);
    s' := Arrived(s, t, d, victim);
  }

  /** A second task, waiting on a free mutex of its own, enters too. */
  lemma SecondEnters(s0: State, s: State, u: TaskId, c: Caller, d: Caller, lock: LockId, other: LockId)
      returns (s': State)
    requires OneInside(s0, s, c, lock) && u != 0 && u in s.tasks && other !in s.held
    requires CanCall(s0, d) && s.tasks[u] == WaitingTask(s0, d, other)
    ensures InCrowd(s0, s') && Inside(s0, s', 0, c) && Inside(s0, s', u, d) && s'.borrowed == s.borrowed
  {
    Enters(s0, s, u);
    s' := Apply(s, Acquire(u));
  }

  /** Two callers of one subject that do not share a borrowed session. */
  ghost predicate Rivals(s0: State, c: Caller, d: Caller) {
    && CanCall(s0, c) && CanCall(s0, d) && s0.subjects[c.session] == s0.subjects[d.session]
    && (c.session == d.session ==> !c.exclusive && !d.exclusive)
  }

  /** Two evictions, of the first subject and of some `second`, let a rival of the first in. */
  lemma BreaksIn(s0: State, s: State, c: Caller, d: Caller, last: Caller, second: Subject, lock: LockId, t: TaskId, u: TaskId)
      returns (s': State)
    requires FullHouse(s0, s, c, lock) && CanCall(s0, last) && t != 0 && u != 0 && t != u && t !in s.tasks && u !in s.tasks
    requires s0.subjects[c.session] in s.locks && second in s.locks && second != s0.subjects[c.session]
    requires s0.subjects[last.session] !in s.locks && last.session !in s.borrowed
    requires Rivals(s0, c, d) && d.session !in Borrows(s, last)
    ensures InCrowd(s0, s') && Inside(s0, s', 0, c) && Inside(s0, s', u, d)
    ensures s'.borrowed <= s.borrowed + {last.session} + if d.exclusive then {d.session} else {}
  {
    var s1 := FirstEnters(s0, s, c, lock);
    var s2 := AnotherArrives(s0, s1, t, c, last, s0.subjects[c.session], lock);
    var s3 := AnotherArrives(s0, s2, u, c, d, second, lock);
    s' := SecondEnters(s0, s3, u, c, d, lock, s2.nextLock);
  }

  /** What the full queue looks like. */
  lemma FullQueue(s0: State, cs: seq<Caller>, s: State)
    requires |cs| == FULL + 1 && InLine(s0, cs, s, FULL)
    ensures FullHouse(s0, s, cs[0], s0.nextLock) && FULL !in s.tasks && FULL + 1 !in s.tasks
    ensures s0.subjects[cs[0].session] in s.locks && s0.subjects[cs[1].session] in s.locks
    ensures s0.subjects[cs[FULL].session] !in s.locks
  {
    QueueInUse(s0, cs, s);
    var line := LineOf(s0, cs);
    TableSize(line.names, s0.nextLock, FULL);
    EntryAt(line.names, s0.nextLock, FULL, 0);
    EntryAt(line.names, s0.nextLock, FULL, 1);
    EntryAt(line.names, s0.nextLock, FULL, FULL);
    TaskAt(line.tasks, FULL, 0);
    TaskAt(line.tasks, FULL, FULL);
    TaskAt(line.tasks, FULL, FULL + 1);
  }

  /** A rival of the first caller finds its own session free. */
  lemma {:induction false} RivalIsFree(s0: State, cs: seq<Caller>, d: Caller, k: nat)
    requires IsCrowd(s0, cs) && 0 < k <= |cs| && Rivals(s0, cs[0], d)
    ensures d.session !in BorrowedBy(cs, k)
  {
    forall i | 0 <= i < k && cs[i].exclusive ensures cs[i].session != d.session {
      assert i > 0 ==> s0.subjects[cs[0].session] != s0.subjects[cs[i].session];
    }
    NotBorrowed(cs, k, d.session);
  }

  /** Any crowd of 4097 lets a rival of its first caller break in. */
  lemma CrowdBreaksIn(s0: State, cs: seq<Caller>, d: Caller) returns (s: State, u: TaskId)
    requires Init(s0) && IsCrowd(s0, cs) && |cs| == FULL + 1 && Rivals(s0, cs[0], d)
    ensures u != 0 && InCrowd(s0, s) && Inside(s0, s, 0, cs[0]) && Inside(s0, s, u, d)
    ensures !d.exclusive ==> d.session !in s.borrowed
  {
    var queue := QueueAll(s0, cs, FULL);
    FullQueue(s0, cs, queue);
    OwnSession(s0, cs, FULL);
    RivalIsFree(s0, cs, d, FULL);
    assert s0.subjects[cs[0].session] != s0.subjects[cs[FULL].session];
    u := FULL + 1;
    s := BreaksIn(s0, queue, cs[0], d, cs[FULL], s0.subjects[cs[1].session], s0.nextLock, FULL, u);
  }

  /** More than 4096 subjects, and two rivals among their callers. */
  lemma MoreThanFull(s0: State, c: Caller, d: Caller) returns (s: State, u: TaskId)
    requires Init(s0) && |CallerSubjects(s0)| > FULL && Rivals(s0, c, d)
    ensures u != 0 && InCrowd(s0, s) && Inside(s0, s, 0, c) && Inside(s0, s, u, d)
    ensures !d.exclusive ==> d.session !in s.borrowed
  {
    assert CanRefresh(s0, c.session);
    var all := PickCrowd(s0, c, CallerSubjects(s0) - {s0.subjects[c.session]});
    s, u := CrowdBreaksIn(s0, all[..FULL + 1], d);
  }

  // ---------------------------------------------------------------------------------------------
  // The exact conditions
  // ---------------------------------------------------------------------------------------------

  /** A task inside whose token is current re-reads it and is ready to submit it. */
  lemma Rereads(s0: State, s: State, t: TaskId, rt: Token)
    requires Reaches(s0, s) && At(s, t) && s.tasks[t].pc.Holding? && HasAccess(s, t)
    requires s.tasks[t].pc.seen == Some(rt) == s.tokens[s.tasks[t].session]
    ensures Reaches(s0, Goto(s, t, Ready(rt, s.tasks[t].pc.lock, Some(rt))))
  {
    ReachesStep(s0, s, Reread(t));
  }

  lemma Submits(s0: State, s: State, t: TaskId, o: Outcome) returns (s': State)
    requires Reaches(s0, s) && At(s, t) && s.tasks[t].pc.Ready? && s.tasks[t].pc.working.Some?
    requires o == Rotated(None) || o == Rejected
    ensures Reaches(s0, s') && s'.tokens == s.tokens && s'.subjects == s.subjects
    ensures forall q :: q in s.tasks && q != t ==> q in s'.tasks && s'.tasks[q] == s.tasks[q]
    ensures s'.log == s.log + [Submission(t, s.tasks[t].pc.rt, s.tasks[t].pc.working.value, o)]
  {
    ReachesStep(s0, s, Exchange(t, o));
    s' := Apply(s, Exchange(t, o));
  }

  /** Two shared tasks of one session inside together: the token the first rotates is submitted again by the second. */
  lemma BothInsideReuses(s0: State, s: State, u: TaskId, x: SessionId)
    requires InCrowd(s0, s) && u != 0 && x !in s.borrowed
    requires Inside(s0, s, 0, Caller(x, false)) && Inside(s0, s, u, Caller(x, false))
    ensures exists s' :: Reaches(s0, s') && !NoReuse(s'.log)
  {
    var rt := s0.tokens[x].value;
    Rereads(s0, s, 0, rt);
    var s1 := Goto(s, 0, Ready(rt, s.tasks[0].pc.lock, Some(rt)));
    Rereads(s0, s1, u, rt);
    var s2 := Goto(s1, u, Ready(rt, s.tasks[u].pc.lock, Some(rt)));
    var s3 := Submits(s0, s2, 0, Rotated(None));
    var s4 := Submits(s0, s3, u, Rejected);
    TwiceSubmitted(s4.log, Submission(0, rt, rt, Rotated(None)), Submission(u, rt, rt, Rejected));
  }

  lemma {:induction false} FewSubjectsAreSafe(s0: State, es: seq<Event>)
    requires Init(s0) && |CallerSubjects(s0)| <= FULL && Exec(s0, es).Some?
    ensures MutualExclusion(Exec(s0, es).value)
    ensures DistinctTokens(s0) ==> NoReuse(Exec(s0, es).value.log)
  {
    FewSubjectsFewBusy(s0, s0, es);
    SingleFlight(s0, es);
  }

  /** Two calls could compete for a subject: some session can be shared, or two owned ones are of the same subject. */
  ghost predicate Contended(s0: State) {
    || SomeToken(s0)
    || (exists x, y :: x != y && x in s0.owned && y in s0.owned && SameSubject(s0, x, y))
  }

  predicate SameSubject(s: State, x: SessionId, y: SessionId) {
    x in s.subjects && y in s.subjects && s.subjects[x] == s.subjects[y]
  }

  lemma PickRivals(s0: State) returns (c: Caller, d: Caller)
    requires Init(s0) && Contended(s0)
    ensures Rivals(s0, c, d)
  {
    if SomeToken(s0) {
      var x :| HasToken(s0, x);
      c, d := Caller(x, false), Caller(x, false);
    } else {
      var x, y :| x != y && x in s0.owned && y in s0.owned && SameSubject(s0, x, y);
      c, d := Caller(x, true), Caller(y, true);
    }
  }

  /** Where no two calls could compete, none do. */
  lemma {:induction false} UncontendedIsSafe(s0: State, es: seq<Event>)
    requires Init(s0) && !Contended(s0) && Exec(s0, es).Some?
    ensures MutualExclusion(Exec(s0, es).value)
  {
    StartsTokenless(s0);
    RunTokenless(s0, es);
    var s := Exec(s0, es).value;
    forall t, u | t in s.tasks && u in s.tasks && InCritical(s.tasks[t].pc) && InCritical(s.tasks[u].pc)
                  && SubjectOf(s, t) == SubjectOf(s, u)
      ensures t == u
    {
      assert Borrowing(s.tasks[t]) && Borrowing(s.tasks[u]) && SameSubject(s0, s.tasks[t].session, s.tasks[u].session);
    }
  }

  lemma RivalsBreak(s0: State, s: State, u: TaskId, c: Caller, d: Caller)
    requires InCrowd(s0, s) && u != 0 && Inside(s0, s, 0, c) && Inside(s0, s, u, d) && Rivals(s0, c, d)
    ensures !MutualExclusion(s)
  {
    assert InCritical(s.tasks[0].pc) && InCritical(s.tasks[u].pc) && SubjectOf(s, 0) == SubjectOf(s, u);
  }

  /**
   Every schedule keeps per-subject exclusion if and only if at most 4096 subjects can be refreshed, or no
   two calls could ever compete for one.
   */
  lemma {:induction false} ExclusionExactly(s0: State)
    requires Init(s0)
    ensures (forall es :: Exec(s0, es).Some? ==> MutualExclusion(Exec(s0, es).value))
            <==> |CallerSubjects(s0)| <= 4096 || !Contended(s0)
  {
    if |CallerSubjects(s0)| <= FULL || !Contended(s0) {
      forall es | Exec(s0, es).Some? ensures MutualExclusion(Exec(s0, es).value) {
        if Contended(s0) {
          FewSubjectsAreSafe(s0, es);
        } else {
          UncontendedIsSafe(s0, es);
        }
      }
    } else {
      var c, d := PickRivals(s0);
      var s, u := MoreThanFull(s0, c, d);
      RivalsBreak(s0, s, u, c, d);
      var es :| Exec(s0, es) == Some(s);
      assert !MutualExclusion(Exec(s0, es).value);
    }
  }

  lemma {:induction false} SingleUseHolds(s0: State, es: seq<Event>)
    requires Init(s0) && DistinctTokens(s0) && (|CallerSubjects(s0)| <= FULL || !SomeToken(s0)) && Exec(s0, es).Some?
    ensures NoReuse(Exec(s0, es).value.log)
  {
    if SomeToken(s0) {
      FewSubjectsAreSafe(s0, es);
    } else {
      StartsTokenless(s0);
      RunTokenless(s0, es);
    }
  }

  lemma SingleUseFails(s0: State)
    requires Init(s0) && (!DistinctTokens(s0) || (|CallerSubjects(s0)| > FULL && SomeToken(s0)))
    ensures exists s :: Reaches(s0, s) && !NoReuse(s.log)
  {
    if DistinctTokens(s0) {
      var x :| HasToken(s0, x);
      var s, u := MoreThanFull(s0, Caller(x, false), Caller(x, false));
      BothInsideReuses(s0, s, u, x);
    } else {
      var x, y :| x in s0.tokens && y in s0.tokens && s0.tokens[x].Some? && s0.tokens[x] == s0.tokens[y] && x != y;
      CopiesReuse(s0, Caller(x, false), Caller(y, false));
    }
  }

  /**
   No schedule submits a rotated token again if and only if no session is a copy of another and, where there
   is any token, at most 4096 subjects can be refreshed.
   */
  lemma {:induction false} SingleUseExactly(s0: State)
    requires Init(s0)
    ensures (forall es :: Exec(s0, es).Some? ==> NoReuse(Exec(s0, es).value.log))
            <==> DistinctTokens(s0) && (|CallerSubjects(s0)| <= 4096 || !SomeToken(s0))
  {
    if DistinctTokens(s0) && (|CallerSubjects(s0)| <= FULL || !SomeToken(s0)) {
      forall es | Exec(s0, es).Some? ensures NoReuse(Exec(s0, es).value.log) {
        SingleUseHolds(s0, es);
      }
    } else {
      SingleUseFails(s0);
      var s :| Reaches(s0, s) && !NoReuse(s.log);
      var es :| Exec(s0, es) == Some(s);
      assert !NoReuse(Exec(s0, es).value.log);
    }
  }
}
