/** The worker pool of src/datacrumbs/validator/probe_validator.cpp: the main thread queues all tasks,
    starts the workers, announces that no more will come and joins them.  Every lock, unlock, wait,
    notification and update is a step of its own, and threads interleave freely. */
module ValidatorPool {
  import opened Common

  /** A function of a probe, and whether attaching to it fails. */
  datatype Task = Task(probe: string, func: string, invalid: bool)

  datatype Thread = Main | Worker(i: nat)

  datatype WorkerPc =
    | Unstarted
    | Lock              // before taking the queue's mutex
    | Check             // holding it, about to test the wait's condition
    | Blocked           // in the wait, without the mutex
    | Woken             // leaving the wait, before taking the mutex again
    | Take              // the condition held; still holding the mutex
    | Validate(t: Task) // a task taken, the mutex released
    | Counted(t: Task)  // invalid and counted, not yet stored
    | Append(t: Task)   // holding the result's mutex
    | Exited

  datatype MainPc =
    | Spawn(k: nat)
    | Announce
    | Locked
    | DoneSet
    | NotifyAll
    | Join(k: nat)
    | Returned

  type Names = map<string, seq<string>>

  /** `finished` and `log` only record what has happened: every task a worker is done with, and those
      stored, in order. */
  datatype State = State(
    workers: seq<WorkerPc>,
    main: MainPc,
    queueOwner: Option<Thread>,
    resultOwner: Option<nat>,
    queue: seq<Task>,
    done: bool,
    count: nat,
    stored: Names,
    finished: multiset<Task>,
    log: seq<Task>)

  /** All tasks are queued before the first worker starts; there is at least one worker. */
  predicate Init(s: State, tasks: seq<Task>) {
    && |s.workers| > 0 && (forall i | 0 <= i < |s.workers| :: s.workers[i] == Unstarted)
    && s == State(s.workers, Spawn(0), None, None, tasks, false, 0, map[], multiset{}, [])
  }

  // ---------- Steps ----------

  datatype Action = MainStep | WorkerStep(i: nat) | Spurious(i: nat)

  predicate Enabled(s: State, a: Action) {
    match a
    case MainStep => MainEnabled(s)
    case WorkerStep(i) => i < |s.workers| && WorkerEnabled(s, i)
    case Spurious(i) => i < |s.workers| && s.workers[i].Blocked?
  }

  predicate MainEnabled(s: State) {
    match s.main
    case Announce => s.queueOwner.None?
    case Join(k) => k < |s.workers| ==> s.workers[k].Exited?
    case Returned => false
    case _ => true
  }

  predicate WorkerEnabled(s: State, i: nat)
    requires i < |s.workers|
  {
    match s.workers[i]
    case Lock => s.queueOwner.None?
    case Woken => s.queueOwner.None?
    case Counted(_) => s.resultOwner.None?
    case Unstarted => false
    case Blocked => false
    case Exited => false
    case _ => true
  }

  function Next(s: State, a: Action): State
    requires Enabled(s, a)
  {
    match a
    case MainStep => NextMain(s)
    case WorkerStep(i) => NextWorker(s, i)
    case Spurious(i) => s.(workers := s.workers[i := Woken])
  }

  function WakeAll(workers: seq<WorkerPc>): seq<WorkerPc> {
    seq(|workers|, i requires 0 <= i < |workers| => if workers[i].Blocked? then Woken else workers[i])
  }

  function NextMain(s: State): (t: State)
    requires MainEnabled(s)
    ensures t == s.(workers := t.workers, main := t.main, queueOwner := t.queueOwner, done := t.done)
    ensures |t.workers| == |s.workers|
  {
    match s.main
    case Spawn(k) =>
      if k < |s.workers| then s.(workers := s.workers[k := Lock], main := Spawn(k + 1)) else s.(main := Announce)
    case Announce => s.(main := Locked, queueOwner := Some(Main))
    case Locked => s.(main := DoneSet, done := true)
    case DoneSet => s.(main := NotifyAll, queueOwner := None)
    case NotifyAll => s.(main := Join(0), workers := WakeAll(s.workers))
    case Join(k) => if k < |s.workers| then s.(main := Join(k + 1)) else s.(main := Returned)
  }

  function Stored(stored: Names, probe: string): seq<string> {
    if probe in stored then stored[probe] else []
  }

  function Store(stored: Names, t: Task): Names {
    stored[t.probe := Stored(stored, t.probe) + [t.func]]
  }

  function NextWorker(s: State, i: nat): (t: State)
    requires i < |s.workers| && WorkerEnabled(s, i)
    ensures t.main == s.main && t.done == s.done && |t.workers| == |s.workers|
    ensures t.workers == s.workers[i := t.workers[i]]
  {
    match s.workers[i]
    case Lock => s.(workers := s.workers[i := Check], queueOwner := Some(Worker(i)))
    case Woken => s.(workers := s.workers[i := Check], queueOwner := Some(Worker(i)))
    case Check =>
      if |s.queue| > 0 || s.done then s.(workers := s.workers[i := Take])
      else s.(workers := s.workers[i := Blocked], queueOwner := None)
    case Take =>
      if |s.queue| == 0 then s.(workers := s.workers[i := if s.done then Exited else Lock], queueOwner := None)
      else s.(workers := s.workers[i := Validate(s.queue[0])], queue := s.queue[1..], queueOwner := None)
    case Validate(t) =>
      if t.invalid then s.(workers := s.workers[i := Counted(t)], count := s.count + 1)
      else s.(workers := s.workers[i := Lock], finished := s.finished + multiset{t})
    case Counted(t) => s.(workers := s.workers[i := Append(t)], resultOwner := Some(i))
    case Append(t) =>
      s.(workers := s.workers[i := Lock], resultOwner := None, stored := Store(s.stored, t),
         finished := s.finished + multiset{t}, log := s.log + [t])
  }

  // ---------- Invariants ----------

  /** The worker has taken `t` and not finished it. */
  predicate Carries(pc: WorkerPc, t: Task) {
    (pc.Validate? || pc.Counted? || pc.Append?) && pc.t == t
  }

  function Carrying(workers: seq<WorkerPc>, t: Task): nat {
    if |workers| == 0 then 0
    else Carrying(workers[..|workers| - 1], t) + if Carries(workers[|workers| - 1], t) then 1 else 0
  }

  /** Every task is queued, in flight or finished, exactly once. */
  ghost predicate Partition(s: State, tasks: seq<Task>) {
    forall t: Task :: Accounted(s, tasks, t)
  }

  predicate Accounted(s: State, tasks: seq<Task>, t: Task) {
    multiset(s.queue)[t] + Carrying(s.workers, t) + s.finished[t] == multiset(tasks)[t]
  }

  predicate BetweenCountAndStore(pc: WorkerPc) { pc.Counted? || pc.Append? }

  function Storing(workers: seq<WorkerPc>): nat {
    if |workers| == 0 then 0
    else Storing(workers[..|workers| - 1]) + if BetweenCountAndStore(workers[|workers| - 1]) then 1 else 0
  }

  function Grouped(log: seq<Task>): Names {
    if |log| == 0 then map[] else Store(Grouped(log[..|log| - 1]), log[|log| - 1])
  }

  predicate Logged(log: seq<Task>, finished: multiset<Task>, t: Task) {
    multiset(log)[t] == if t.invalid then finished[t] else 0
  }

  /** The counter runs ahead of what is stored by the workers between counting and storing; what is
      stored are the finished invalid tasks, grouped by probe. */
  ghost predicate Results(s: State) {
    && s.count == |s.log| + Storing(s.workers)
    && s.stored == Grouped(s.log)
    && (forall t: Task :: Logged(s.log, s.finished, t))
    && (forall i | 0 <= i < |s.workers| && (s.workers[i].Counted? || s.workers[i].Append?) :: s.workers[i].t.invalid)
  }

  /** A thread is inside a critical section exactly when it owns the mutex, and past the wait its
      condition holds. */
  ghost predicate Mutexes(s: State) {
    && (s.queueOwner == Some(Main) <==> s.main.Locked? || s.main.DoneSet?)
    && (forall i | 0 <= i < |s.workers| ::
          && (s.queueOwner == Some(Worker(i)) <==> s.workers[i].Check? || s.workers[i].Take?)
          && (s.resultOwner == Some(i) <==> s.workers[i].Append?)
          && (s.workers[i].Take? ==> |s.queue| > 0 || s.done))
    && (s.queueOwner.Some? && s.queueOwner.value.Worker? ==> s.queueOwner.value.i < |s.workers|)
    && (s.resultOwner.Some? ==> s.resultOwner.value < |s.workers|)
  }

  /** A worker sleeps only on an empty queue, and once `done` is set only until it is notified. */
  ghost predicate NoLostWakeup(s: State) {
    forall i | 0 <= i < |s.workers| && s.workers[i].Blocked? ::
      |s.queue| == 0 && (s.done ==> s.main.DoneSet? || s.main.NotifyAll?)
  }

  ghost predicate Shutdown(s: State) {
    && |s.workers| > 0
    && (s.done <==> s.main.DoneSet? || s.main.NotifyAll? || s.main.Join? || s.main.Returned?)
    && (forall i | 0 <= i < |s.workers| && s.workers[i].Exited? :: |s.queue| == 0 && s.done)
    && (forall i | 0 <= i < |s.workers| :: s.workers[i].Unstarted? <==> s.main.Spawn? && s.main.k <= i)
    && (s.main.Join? ==> s.main.k <= |s.workers| && forall i | 0 <= i < s.main.k :: s.workers[i].Exited?)
    && (s.main.Returned? ==> forall i | 0 <= i < |s.workers| :: s.workers[i].Exited?)
  }

  ghost predicate Inv(s: State, tasks: seq<Task>) {
    Partition(s, tasks) && Results(s) && Mutexes(s) && NoLostWakeup(s) && Shutdown(s)
  }

  // ---------- Every step keeps them ----------

  lemma {:induction false} CarryingMoves(workers: seq<WorkerPc>, i: nat, pc: WorkerPc, t: Task)
    requires i < |workers|
    ensures Carrying(workers[i := pc], t) + (if Carries(workers[i], t) then 1 else 0)
         == Carrying(workers, t) + if Carries(pc, t) then 1 else 0
  {
    var n := |workers| - 1;
    if i < n {
      CarryingMoves(workers[..n], i, pc, t);
      assert workers[i := pc][..n] == workers[..n][i := pc];
    } else {
      assert workers[i := pc][..n] == workers[..n];
    }
  }

  lemma {:induction false} StoringMoves(workers: seq<WorkerPc>, i: nat, pc: WorkerPc)
    requires i < |workers|
    ensures Storing(workers[i := pc]) + (if BetweenCountAndStore(workers[i]) then 1 else 0)
         == Storing(workers) + if BetweenCountAndStore(pc) then 1 else 0
  {
    var n := |workers| - 1;
    if i < n {
      StoringMoves(workers[..n], i, pc);
      assert workers[i := pc][..n] == workers[..n][i := pc];
    } else {
      assert workers[i := pc][..n] == workers[..n];
    }
  }

  lemma {:induction false} WakingMovesNothing(workers: seq<WorkerPc>, t: Task)
    ensures Carrying(WakeAll(workers), t) == Carrying(workers, t)
    ensures Storing(WakeAll(workers)) == Storing(workers)
  {
    if |workers| == 0 {
    } else {
      var init := workers[..|workers| - 1];
      WakingMovesNothing(init, t);
      assert WakeAll(workers)[..|workers| - 1] == WakeAll(init);
    }
  }

  lemma {:induction false} AccountedKept(s: State, a: Action, tasks: seq<Task>, t: Task)
    requires Enabled(s, a) && Shutdown(s) && Accounted(s, tasks, t)
    ensures Accounted(Next(s, a), tasks, t)
  {
    match a
    case MainStep => AccountedKeptByMain(s, tasks, t);
    case WorkerStep(i) => AccountedKeptByWorker(s, i, tasks, t);
    case Spurious(i) => CarryingMoves(s.workers, i, Woken, t);
  }

  lemma {:induction false} AccountedKeptByMain(s: State, tasks: seq<Task>, t: Task)
    requires MainEnabled(s) && Shutdown(s) && Accounted(s, tasks, t)
    ensures Accounted(NextMain(s), tasks, t)
  {
    WakingMovesNothing(s.workers, t);
    if s.main.Spawn? && s.main.k < |s.workers| {
      CarryingMoves(s.workers, s.main.k, Lock, t);
    }
  }

  lemma {:induction false} TakeFirst(queue: seq<Task>, t: Task)
    requires |queue| > 0
    ensures multiset(queue)[t] == multiset(queue[1..])[t] + if queue[0] == t then 1 else 0
  {
    assert queue == [queue[0]] + queue[1..];
  }

  lemma {:induction false} AccountedKeptByWorker(s: State, i: nat, tasks: seq<Task>, t: Task)
    requires i < |s.workers| && WorkerEnabled(s, i) && Accounted(s, tasks, t)
    ensures Accounted(NextWorker(s, i), tasks, t)
  {
    CarryingMoves(s.workers, i, NextWorker(s, i).workers[i], t);
    WorkerMoves(s, i, t);
  }

  /** A worker's step only moves a task: from the queue to the worker, or from there to the finished. */
  lemma {:induction false} WorkerMoves(s: State, i: nat, t: Task)
    requires i < |s.workers| && WorkerEnabled(s, i)
    ensures var next := NextWorker(s, i);
            At(next.queue, next.workers[i], next.finished, t) == At(s.queue, s.workers[i], s.finished, t)
  {
    match s.workers[i] {
      case Take =>
        if |s.queue| > 0 {
          TakeFirst(s.queue, t);
          assert NextWorker(s, i).workers[i] == Validate(s.queue[0]) && NextWorker(s, i).queue == s.queue[1..];
        }
      case Validate(u) => assert NextWorker(s, i).workers[i] == if u.invalid then Counted(u) else Lock;
      case Append(u) => assert NextWorker(s, i).finished == s.finished + multiset{u};
      case _ =>
    }
  }

  /** How often a task is queued, carried by this worker or finished. */
  function At(queue: seq<Task>, pc: WorkerPc, finished: multiset<Task>, t: Task): nat {
    multiset(queue)[t] + (if Carries(pc, t) then 1 else 0) + finished[t]
  }

  lemma {:induction false} PartitionKept(s: State, a: Action, tasks: seq<Task>)
    requires Enabled(s, a) && Shutdown(s) && Partition(s, tasks)
    ensures Partition(Next(s, a), tasks)
  {
    var next := Next(s, a);
    forall t: Task ensures Accounted(next, tasks, t) {
      assert Accounted(s, tasks, t);
      AccountedKept(s, a, tasks, t);
    }
  }

  lemma {:induction false} ResultsKeptByMain(s: State)
    requires MainEnabled(s) && Shutdown(s) && Results(s)
    ensures Results(NextMain(s))
  {
    WakingMovesNothing(s.workers, Task("", "", true));
    if s.main.Spawn? && s.main.k < |s.workers| {
      StoringMoves(s.workers, s.main.k, Lock);
    }
  }

  lemma {:induction false} LoggedKept(log: seq<Task>, finished: multiset<Task>, t: Task, u: Task)
    requires Logged(log, finished, u)
    ensures Logged(if t.invalid then log + [t] else log, finished + multiset{t}, u)
  {
  }

  lemma {:induction false} ResultsKeptByWorker(s: State, i: nat)
    requires i < |s.workers| && WorkerEnabled(s, i) && Results(s)
    ensures Results(NextWorker(s, i))
  {
    StoringMoves(s.workers, i, NextWorker(s, i).workers[i]);
    match s.workers[i] {
      case Validate(t) => LogKept(s, t, NextWorker(s, i).finished, NextWorker(s, i).log);
      case Append(t) => LogKept(s, t, NextWorker(s, i).finished, NextWorker(s, i).log);
      case _ =>
    }
  }

  lemma {:induction false} LogKept(s: State, t: Task, finished: multiset<Task>, log: seq<Task>)
    requires Results(s)
    ensures finished == s.finished + multiset{t} && log == (if t.invalid then s.log + [t] else s.log) ==>
              forall u: Task :: Logged(log, finished, u)
    ensures Grouped(s.log + [t]) == Store(s.stored, t)
  {
    forall u: Task | finished == s.finished + multiset{t} && log == (if t.invalid then s.log + [t] else s.log)
      ensures Logged(log, finished, u)
    {
      LoggedKept(s.log, s.finished, t, u);
    }
    assert (s.log + [t])[..|s.log|] == s.log;
  }

  lemma {:induction false} ResultsKept(s: State, a: Action)
    requires Enabled(s, a) && Shutdown(s) && Results(s)
    ensures Results(Next(s, a))
  {
    match a
    case MainStep => ResultsKeptByMain(s);
    case WorkerStep(i) => ResultsKeptByWorker(s, i);
    case Spurious(i) => StoringMoves(s.workers, i, Woken);
  }

  lemma {:induction false} MutexesKept(s: State, a: Action)
    requires Enabled(s, a) && Mutexes(s) && Shutdown(s)
    ensures Mutexes(Next(s, a))
  {
    match a
    case MainStep =>
    case WorkerStep(i) => MutexesKeptByWorker(s, i);
    case Spurious(i) =>
  }

  lemma {:induction false} MutexesKeptByWorker(s: State, i: nat)
    requires i < |s.workers| && WorkerEnabled(s, i) && Mutexes(s)
    ensures Mutexes(NextWorker(s, i))
  {
  }

  lemma {:induction false} WakeupKept(s: State, a: Action)
    requires Enabled(s, a) && Mutexes(s) && Shutdown(s) && NoLostWakeup(s)
    ensures NoLostWakeup(Next(s, a))
  {
  }

  lemma {:induction false} ShutdownKept(s: State, a: Action)
    requires Enabled(s, a) && Mutexes(s) && Shutdown(s)
    ensures Shutdown(Next(s, a))
  {
    match a
    case MainStep => ShutdownKeptByMain(s);
    case WorkerStep(i) => ShutdownKeptByWorker(s, i);
    case Spurious(i) =>
  }

  lemma {:induction false} ShutdownKeptByMain(s: State)
    requires MainEnabled(s) && Shutdown(s)
    ensures Shutdown(NextMain(s))
  {
  }

  lemma {:induction false} ShutdownKeptByWorker(s: State, i: nat)
    requires i < |s.workers| && WorkerEnabled(s, i) && Mutexes(s) && Shutdown(s)
    ensures Shutdown(NextWorker(s, i))
  {
  }

  lemma {:induction false} InvKept(s: State, a: Action, tasks: seq<Task>)
    requires Enabled(s, a) && Inv(s, tasks)
    ensures Inv(Next(s, a), tasks)
  {
    PartitionKept(s, a, tasks);
    ResultsKept(s, a);
    MutexesKept(s, a);
    WakeupKept(s, a);
    ShutdownKept(s, a);
  }

  // ---------- Runs ----------

  ghost predicate IsRun(states: seq<State>, actions: seq<Action>, tasks: seq<Task>) {
    && |states| == |actions| + 1 && Init(states[0], tasks)
    && forall n | 0 <= n < |actions| :: StepsAt(states, actions, n)
  }

  ghost predicate StepsAt(states: seq<State>, actions: seq<Action>, n: nat)
    requires n < |actions| && |states| == |actions| + 1
  {
    Steps(states[n], actions[n], states[n + 1])
  }

  ghost predicate Steps(s: State, a: Action, t: State) {
    Enabled(s, a) && t == Next(s, a)
  }

  lemma {:induction false} InitInv(s: State, tasks: seq<Task>)
    requires Init(s, tasks)
    ensures Inv(s, tasks)
  {
    forall t: Task ensures Accounted(s, tasks, t) {
      NothingCarried(s.workers, t);
    }
    NothingCarried(s.workers, Task("", "", true));
  }

  lemma {:induction false} NothingCarried(workers: seq<WorkerPc>, t: Task)
    requires forall i | 0 <= i < |workers| :: workers[i].Unstarted? || workers[i].Exited?
    ensures Carrying(workers, t) == 0 && Storing(workers) == 0
  {
    if |workers| == 0 {
    } else {
      NothingCarried(workers[..|workers| - 1], t);
    }
  }

  /** The machine starts with any number of workers, and a wait may return for no reason. */
  lemma {:induction false} NothingExcluded(tasks: seq<Task>, n: nat, s: State, i: nat)
    requires n > 0 && i < |s.workers|
    ensures var t := State(seq(n, _ => Unstarted), Spawn(0), None, None, tasks, false, 0, map[], multiset{}, []); Init(t, tasks)
    ensures s.workers[i].Blocked? ==> Enabled(s, Spurious(i)) && Next(s, Spurious(i)).workers[i] == Woken
  {
  }

  /** Every reachable state satisfies the invariants. */
  lemma {:induction false} Safety(states: seq<State>, actions: seq<Action>, tasks: seq<Task>, n: nat)
    requires IsRun(states, actions, tasks) && n < |states|
    ensures Inv(states[n], tasks)
  {
    if n == 0 {
      InitInv(states[0], tasks);
    } else {
      Safety(states, actions, tasks, n - 1);
      assert StepsAt(states, actions, n - 1);
      InvKept(states[n - 1], actions[n - 1], tasks);
    }
  }

  // ---------- The result ----------

  /** The sum the closing check computes. */
  ghost function TotalStored(stored: Names): nat
    decreases |stored|
  {
    if stored == map[] then 0
    else var p :| p in stored; |stored[p]| + TotalStored(stored - {p})
  }

  lemma {:induction false} TotalWithout(stored: Names, p: string)
    requires p in stored
    decreases |stored|
    ensures TotalStored(stored) == |stored[p]| + TotalStored(stored - {p})
  {
    var q :| q in stored && TotalStored(stored) == |stored[q]| + TotalStored(stored - {q});
    if p != q {
      TotalWithout(stored - {q}, p);
      TotalWithout(stored - {p}, q);
      assert stored - {q} - {p} == stored - {p} - {q};
    }
  }

  lemma {:induction false} StoreAddsOne(stored: Names, t: Task)
    ensures TotalStored(Store(stored, t)) == TotalStored(stored) + 1
  {
    var after := Store(stored, t);
    TotalWithout(after, t.probe);
    assert after - {t.probe} == stored - {t.probe};
    if t.probe in stored {
      TotalWithout(stored, t.probe);
    } else {
      assert stored - {t.probe} == stored;
    }
  }

  lemma {:induction false} GroupedTotal(log: seq<Task>)
    ensures TotalStored(Grouped(log)) == |log|
  {
    if |log| == 0 {
    } else {
      GroupedTotal(log[..|log| - 1]);
      StoreAddsOne(Grouped(log[..|log| - 1]), log[|log| - 1]);
    }
  }

  /** Grouping by probe loses nothing, adds nothing and makes no empty group. */
  lemma {:induction false} GroupedExact(log: seq<Task>, p: string, f: string)
    ensures multiset(Stored(Grouped(log), p))[f] == multiset(log)[Task(p, f, true)] + multiset(log)[Task(p, f, false)]
    ensures p in Grouped(log) ==> |Grouped(log)[p]| > 0
  {
    if |log| == 0 {
    } else {
      var init, last := log[..|log| - 1], log[|log| - 1];
      GroupedExact(init, p, f);
      LogGrows(init, last, Task(p, f, true));
      LogGrows(init, last, Task(p, f, false));
      assert log == init + [last];
      StoredGrows(Grouped(init), last, p, f);
    }
  }

  lemma {:induction false} StoredGrows(stored: Names, t: Task, p: string, f: string)
    ensures multiset(Stored(Store(stored, t), p))[f]
         == multiset(Stored(stored, p))[f] + if t.probe == p && t.func == f then 1 else 0
    ensures (p in stored && |stored[p]| > 0) || t.probe == p ==> |Stored(Store(stored, t), p)| > 0
  {
    NamesGrow(Stored(stored, p), t.func, f);
  }

  lemma {:induction false} LogGrows(log: seq<Task>, last: Task, t: Task)
    ensures multiset(log + [last])[t] == multiset(log)[t] + if last == t then 1 else 0
  {
  }

  lemma {:induction false} NamesGrow(names: seq<string>, last: string, f: string)
    ensures multiset(names + [last])[f] == multiset(names)[f] + if last == f then 1 else 0
  {
  }

  /** Every invalid task is named under its probe as often as it was queued, and nothing else is. */
  ghost predicate NamesExactly(stored: Names, tasks: seq<Task>) {
    forall p: string, f: string :: multiset(Stored(stored, p))[f] == multiset(tasks)[Task(p, f, true)]
  }

  /** When the main thread has joined all workers, every task has been validated exactly once, the
      closing check finds as many names stored as were counted, and the result names exactly the
      invalid functions of every probe. */
  lemma {:induction false} Result(states: seq<State>, actions: seq<Action>, tasks: seq<Task>, n: nat)
    requires IsRun(states, actions, tasks) && n < |states| && states[n].main.Returned?
    ensures var s := states[n];
            && s.finished == multiset(tasks)
            && s.count == TotalStored(s.stored)
            && NamesExactly(s.stored, tasks)
            && (forall p | p in s.stored :: |s.stored[p]| > 0)
  {
    Safety(states, actions, tasks, n);
    var s := states[n];
    assert s.workers[0].Exited?;
    forall t: Task ensures s.finished[t] == multiset(tasks)[t] {
      assert Accounted(s, tasks, t);
      NothingCarried(s.workers, t);
    }
    NothingCarried(s.workers, Task("", "", true));
    forall p: string, f: string ensures multiset(Stored(s.stored, p))[f] == multiset(tasks)[Task(p, f, true)] {
      GroupedExact(s.log, p, f);
      assert Logged(s.log, s.finished, Task(p, f, true)) && Logged(s.log, s.finished, Task(p, f, false));
    }
    forall p | p in s.stored ensures |s.stored[p]| > 0 {
      GroupedExact(s.log, p, "");
    }
    GroupedTotal(s.log);
  }

  /** In every state the counter is ahead of the names stored by exactly the workers in between. */
  lemma {:induction false} CounterLead(states: seq<State>, actions: seq<Action>, tasks: seq<Task>, n: nat)
    requires IsRun(states, actions, tasks) && n < |states|
    ensures states[n].count == TotalStored(states[n].stored) + Storing(states[n].workers)
  {
    Safety(states, actions, tasks, n);
    GroupedTotal(states[n].log);
  }

  /** After `notify_all` no worker sleeps again. */
  lemma {:induction false} NoneSleepsAfterNotify(states: seq<State>, actions: seq<Action>, tasks: seq<Task>, n: nat, i: nat)
    requires IsRun(states, actions, tasks) && n < |states| && i < |states[n].workers|
    requires states[n].main.Join? || states[n].main.Returned?
    ensures !states[n].workers[i].Blocked?
  {
    Safety(states, actions, tasks, n);
  }

  // ---------- Progress ----------

  /** No deadlock: until the main thread returns some thread can go on, without spurious wakeups. */
  lemma {:induction false} SomeoneCanGoOn(s: State, tasks: seq<Task>) returns (a: Action)
    requires Inv(s, tasks) && !s.main.Returned?
    ensures !a.Spurious? && Enabled(s, a)
  {
    if MainEnabled(s) {
      return MainStep;
    }
    if s.queueOwner.Some? {
      return WorkerStep(s.queueOwner.value.i);
    }
    if s.resultOwner.Some? {
      return WorkerStep(s.resultOwner.value);
    }
    return WorkerStep(s.main.k);
  }

  function WorkerWork(pc: WorkerPc): nat {
    match pc
    case Unstarted => 8
    case Lock => 7
    case Woken => 7
    case Check => 6
    case Take => 5
    case Blocked => 0
    case Exited => 0
    case Validate(_) => 10
    case Counted(_) => 9
    case Append(_) => 8
  }

  function WorkersWork(workers: seq<WorkerPc>): nat {
    if |workers| == 0 then 0 else WorkersWork(workers[..|workers| - 1]) + WorkerWork(workers[|workers| - 1])
  }

  function MainWork(pc: MainPc, n: nat): nat {
    match pc
    case Spawn(k) => 8 * n + 5 + (if k <= n then n - k else 0) + n + 2
    case Announce => 8 * n + n + 6
    case Locked => 8 * n + n + 5
    case DoneSet => 8 * n + n + 4
    case NotifyAll => 8 * n + n + 3
    case Join(k) => 1 + if k <= n then n - k else 0
    case Returned => 0
  }

  function Work(s: State): nat {
    6 * |s.queue| + WorkersWork(s.workers) + MainWork(s.main, |s.workers|)
  }

  lemma {:induction false} WorkMoves(workers: seq<WorkerPc>, i: nat, pc: WorkerPc)
    requires i < |workers|
    ensures WorkersWork(workers[i := pc]) + WorkerWork(workers[i]) == WorkersWork(workers) + WorkerWork(pc)
  {
    var n := |workers| - 1;
    if i < n {
      WorkMoves(workers[..n], i, pc);
      assert workers[i := pc][..n] == workers[..n][i := pc];
    } else {
      assert workers[i := pc][..n] == workers[..n];
    }
  }

  lemma {:induction false} WakingWork(workers: seq<WorkerPc>)
    ensures WorkersWork(WakeAll(workers)) <= WorkersWork(workers) + 7 * |workers|
  {
    if |workers| == 0 {
    } else {
      var init := workers[..|workers| - 1];
      WakingWork(init);
      assert WakeAll(workers)[..|workers| - 1] == WakeAll(init);
    }
  }

  lemma {:induction false} MainShrinks(s: State)
    requires MainEnabled(s) && Shutdown(s)
    ensures Work(NextMain(s)) < Work(s)
  {
    match s.main {
      case Spawn(k) =>
        if k < |s.workers| {
          WorkMoves(s.workers, k, Lock);
        }
      case NotifyAll => WakingWork(s.workers);
      case _ =>
    }
  }

  lemma {:induction false} WorkerShrinks(s: State, i: nat)
    requires i < |s.workers| && WorkerEnabled(s, i) && Mutexes(s)
    ensures var t := NextWorker(s, i);
            6 * |t.queue| + WorkerWork(t.workers[i]) < 6 * |s.queue| + WorkerWork(s.workers[i])
  {
  }

  /** Every step but a spurious wakeup leaves less to do. */
  lemma {:induction false} WorkShrinks(s: State, a: Action, tasks: seq<Task>)
    requires Inv(s, tasks) && Enabled(s, a) && !a.Spurious?
    ensures Work(Next(s, a)) < Work(s)
  {
    match a
    case MainStep => MainShrinks(s);
    case WorkerStep(i) =>
      WorkerShrinks(s, i);
      WorkMoves(s.workers, i, NextWorker(s, i).workers[i]);
  }

  /** So without spurious wakeups every run is at most as long as the work it starts with, and by
      SomeoneCanGoOn it only ends when the main thread has returned. */
  lemma {:induction false} Terminates(states: seq<State>, actions: seq<Action>, tasks: seq<Task>, n: nat)
    requires IsRun(states, actions, tasks) && n < |states|
    requires forall k | 0 <= k < n :: !actions[k].Spurious?
    ensures n + Work(states[n]) <= Work(states[0])
  {
    if n == 0 {
    } else {
      Terminates(states, actions, tasks, n - 1);
      StepShrinks(states, actions, tasks, n - 1);
    }
  }

  lemma {:induction false} StepShrinks(states: seq<State>, actions: seq<Action>, tasks: seq<Task>, n: nat)
    requires IsRun(states, actions, tasks) && n < |actions| && !actions[n].Spurious?
    ensures Work(states[n + 1]) < Work(states[n])
  {
    Safety(states, actions, tasks, n);
    assert StepsAt(states, actions, n);
    WorkShrinks(states[n], actions[n], tasks);
  }
}
