/** The trace writer of src/datacrumbs/server/process/writer/chrome_writer.cpp: one worker thread that
    takes events from a queue, and client threads that push them.  Client 0 is the main thread, the
    only one that also writes directly and finalizes.  Every lock, unlock, wait, notification and
    character written is a step of its own, and threads interleave freely. */
module ChromeWriter {
  import opened Common

  /** An event with the line it is written as; an event of unknown kind has none. */
  datatype Event = Event(line: Option<string>)

  datatype Thread = Worker | Client(i: nat)

  datatype WorkerPc =
    | Lock           // before taking the queue's mutex
    | Check          // holding it, about to test the wait's condition
    | Blocked        // in the wait, without the mutex
    | Woken          // leaving the wait, before taking the mutex again
    | Take           // the condition held; still holding the mutex
    | Have(e: Event) // an event taken, the mutex released
    | Writing(e: Event, line: string, k: nat)  // holding the file's mutex, `k` characters written
    | Exited

  datatype ClientPc =
    | Idle
    | Push(e: Event)
    | PushLocked(e: Event)
    | Pushed
    | Notify
    | Write(e: Event)
    | WriteLine(e: Event, line: string, k: nat)
    | Stop
    | StopLocked
    | StopSet
    | StopNotify
    | Join
    | Close
    | Done

  /** A line in the file and whose it is. */
  datatype Entry = Entry(author: Thread, line: string)

  /** `pushed`, `written`, `late`, `direct` and `lines` only record what has happened: the events pushed
      in the order of the lock, those the worker is done with, those pushed after it exited, those the
      main thread has written itself, and the lines completed. */
  datatype State = State(
    worker: WorkerPc,
    clients: seq<ClientPc>,
    queueOwner: Option<Thread>,
    fileOwner: Option<Thread>,
    queue: seq<Event>,
    stop: bool,
    file: string,
    pushed: seq<Event>,
    written: seq<Event>,
    late: seq<Event>,
    direct: seq<Event>,
    lines: seq<Entry>)

  /** After the constructor: the opening bracket is written before the worker starts. */
  predicate Init(s: State) {
    && |s.clients| > 0 && (forall i | 0 <= i < |s.clients| :: s.clients[i] == Idle)
    && s == State(Lock, s.clients, None, None, [], false, "[\n", [], [], [], [], [])
  }

  // ---------- Steps ----------

  datatype Operation = DoPush(e: Event) | DoWrite(e: Event) | DoFinalize

  /** Spurious: the wait returns without a notification.  Begin: an idle client calls a method. */
  datatype Action = WorkerStep | Spurious | ClientStep(i: nat) | Begin(i: nat, op: Operation)

  predicate Enabled(s: State, a: Action) {
    match a
    case WorkerStep => WorkerEnabled(s)
    case Spurious => s.worker.Blocked?
    case ClientStep(i) => i < |s.clients| && ClientEnabled(s, s.clients[i])
    case Begin(i, op) => i < |s.clients| && s.clients[i].Idle? && (i == 0 || op.DoPush?)
  }

  predicate WorkerEnabled(s: State) {
    match s.worker
    case Lock => s.queueOwner.None?
    case Woken => s.queueOwner.None?
    case Have(e) => e.line.Some? ==> s.fileOwner.None?
    case Blocked => false
    case Exited => false
    case _ => true
  }

  predicate ClientEnabled(s: State, pc: ClientPc) {
    match pc
    case Push(_) => s.queueOwner.None?
    case Stop => s.queueOwner.None?
    case Write(e) => e.line.Some? ==> s.fileOwner.None?
    case Join => s.worker.Exited?
    case Idle => false
    case Done => false
    case _ => true
  }

  function Next(s: State, a: Action): State
    requires Enabled(s, a)
  {
    match a
    case WorkerStep => NextWorker(s)
    case Spurious => s.(worker := Woken)
    case ClientStep(i) => NextClient(s, i)
    case Begin(i, op) => s.(clients := s.clients[i := Begun(op)])
  }

  function Begun(op: Operation): ClientPc {
    match op
    case DoPush(e) => Push(e)
    case DoWrite(e) => Write(e)
    case DoFinalize => Stop
  }

  function NextWorker(s: State): (t: State)
    requires WorkerEnabled(s)
    ensures t.clients == s.clients && t.stop == s.stop && t.pushed == s.pushed && t.late == s.late
    ensures t.direct == s.direct
  {
    match s.worker
    case Lock => s.(worker := Check, queueOwner := Some(Worker))
    case Woken => s.(worker := Check, queueOwner := Some(Worker))
    case Check =>
      if |s.queue| > 0 || s.stop then s.(worker := Take)
      else s.(worker := Blocked, queueOwner := None)
    case Take =>
      if |s.queue| == 0 then s.(worker := if s.stop then Exited else Lock, queueOwner := None)
      else s.(worker := Have(s.queue[0]), queue := s.queue[1..], queueOwner := None)
    case Have(e) =>
      if e.line.None? then s.(worker := Lock, written := s.written + [e])
      else s.(worker := Writing(e, e.line.value, 0), fileOwner := Some(Worker))
    case Writing(e, line, k) =>
      if k < |line| then s.(worker := Writing(e, line, k + 1), file := s.file + [line[k]])
      else s.(worker := Lock, fileOwner := None, written := s.written + [e], lines := s.lines + [Entry(Worker, line)])
  }

  function Notified(worker: WorkerPc): WorkerPc {
    if worker.Blocked? then Woken else worker
  }

  function NextClient(s: State, i: nat): (t: State)
    requires i < |s.clients| && ClientEnabled(s, s.clients[i])
    ensures t.written == s.written && |t.clients| == |s.clients|
    ensures t.clients == s.clients[i := t.clients[i]]
  {
    match s.clients[i]
    case Push(e) => s.(clients := s.clients[i := PushLocked(e)], queueOwner := Some(Client(i)))
    case PushLocked(e) =>
      s.(clients := s.clients[i := Pushed], queue := s.queue + [e], pushed := s.pushed + [e],
         late := if s.worker.Exited? then s.late + [e] else s.late)
    case Pushed => s.(clients := s.clients[i := Notify], queueOwner := None)
    case Notify => s.(clients := s.clients[i := Idle], worker := Notified(s.worker))
    case Write(e) =>
      if e.line.None? then s.(clients := s.clients[i := Idle], direct := s.direct + [e])
      else s.(clients := s.clients[i := WriteLine(e, e.line.value, 0)], fileOwner := Some(Client(i)))
    case WriteLine(e, line, k) =>
      if k < |line| then s.(clients := s.clients[i := WriteLine(e, line, k + 1)], file := s.file + [line[k]])
      else s.(clients := s.clients[i := Idle], fileOwner := None, direct := s.direct + [e],
              lines := s.lines + [Entry(Client(i), line)])
    case Stop => s.(clients := s.clients[i := StopLocked], queueOwner := Some(Client(i)))
    case StopLocked => s.(clients := s.clients[i := StopSet], stop := true)
    case StopSet => s.(clients := s.clients[i := StopNotify], queueOwner := None)
    case StopNotify => s.(clients := s.clients[i := Join], worker := Notified(s.worker))
    case Join => s.(clients := s.clients[i := Close])
    case Close => s.(clients := s.clients[i := Done], file := s.file + "]")
  }

  // ---------- Invariants ----------

  /** The events the worker has taken and not finished. */
  function InFlight(worker: WorkerPc): seq<Event> {
    match worker
    case Have(e) => [e]
    case Writing(e, _, _) => [e]
    case _ => []
  }

  /** Every event pushed is written, in flight or queued, once and in order. */
  predicate InOrder(s: State) {
    s.written + InFlight(s.worker) + s.queue == s.pushed
  }

  predicate HoldsQueue(pc: ClientPc) { pc.PushLocked? || pc.Pushed? || pc.StopLocked? || pc.StopSet? }

  /** A thread is inside a critical section exactly when it owns the mutex, and past the wait its
      condition holds. */
  ghost predicate QueueMutex(s: State) {
    && (s.queueOwner == Some(Worker) <==> s.worker.Check? || s.worker.Take?)
    && (forall i | 0 <= i < |s.clients| :: s.queueOwner == Some(Client(i)) <==> HoldsQueue(s.clients[i]))
    && (s.queueOwner.Some? && s.queueOwner.value.Client? ==> s.queueOwner.value.i < |s.clients|)
    && (s.worker.Take? ==> |s.queue| > 0 || s.stop)
  }

  ghost predicate FileMutex(s: State) {
    && (s.fileOwner == Some(Worker) <==> s.worker.Writing?)
    && (forall i | 0 <= i < |s.clients| :: s.fileOwner == Some(Client(i)) <==> s.clients[i].WriteLine?)
    && (s.fileOwner.Some? && s.fileOwner.value.Client? ==> s.fileOwner.value.i < |s.clients|)
  }

  /** The client will still notify. */
  predicate OwesNotify(pc: ClientPc) {
    pc.Pushed? || pc.Notify? || pc.StopSet? || pc.StopNotify?
  }

  ghost predicate SomeoneOwes(s: State) {
    exists i :: 0 <= i < |s.clients| && OwesNotify(s.clients[i])
  }

  /** A worker asleep although it has something to do is about to be notified. */
  ghost predicate NoLostWakeup(s: State) {
    s.worker.Blocked? && (|s.queue| > 0 || s.stop) ==> SomeoneOwes(s)
  }

  predicate Stopping(pc: ClientPc) { pc.StopSet? || pc.StopNotify? || pc.Join? || pc.Close? || pc.Done? }

  /** Only the main thread writes and stops, and the worker exits only when told to and with nothing
      left but what is pushed afterwards. */
  ghost predicate Shutdown(s: State) {
    && |s.clients| > 0
    && (s.stop <==> Stopping(s.clients[0]))
    && (s.clients[0].Close? || s.clients[0].Done? ==> s.worker.Exited?)
    && (s.worker.Exited? ==> s.stop && s.queue == s.late)
    && (!s.worker.Exited? ==> s.late == [])
    && (forall i | 1 <= i < |s.clients| ::
          s.clients[i].Idle? || s.clients[i].Push? || s.clients[i].PushLocked? || s.clients[i].Pushed? || s.clients[i].Notify?)
  }

  /** The file up to the last completed line. */
  function Text(lines: seq<Entry>): string {
    if |lines| == 0 then "[\n" else Text(lines[..|lines| - 1]) + lines[|lines| - 1].line
  }

  ghost predicate FileOk(s: State) {
    && |s.clients| > 0
    && (match s.worker
        case Writing(e, line, k) => e.line == Some(line) && k <= |line| && s.file == Text(s.lines) + line[..k]
        case _ =>
          match s.clients[0]
          case WriteLine(e, line, k) => e.line == Some(line) && k <= |line| && s.file == Text(s.lines) + line[..k]
          case Done => s.file == Text(s.lines) + "]"
          case _ => s.file == Text(s.lines))
  }

  /** The lines written by one thread, in the order of the file. */
  function LinesBy(lines: seq<Entry>, author: Thread): seq<string> {
    if |lines| == 0 then []
    else
      var before, last := LinesBy(lines[..|lines| - 1], author), lines[|lines| - 1];
      if last.author == author then before + [last.line] else before
  }

  function LinesOf(events: seq<Event>): seq<string> {
    if |events| == 0 then []
    else
      var before, last := LinesOf(events[..|events| - 1]), events[|events| - 1];
      if last.line.Some? then before + [last.line.value] else before
  }

  /** The lines of the worker are those of the events it has taken, the main thread's those of its own,
      each once and in order. */
  predicate LinesMatch(s: State) {
    LinesBy(s.lines, Worker) == LinesOf(s.written) && LinesBy(s.lines, Client(0)) == LinesOf(s.direct)
  }

  ghost predicate Inv(s: State) {
    InOrder(s) && QueueMutex(s) && FileMutex(s) && NoLostWakeup(s) && Shutdown(s) && FileOk(s) && LinesMatch(s)
  }

  // ---------- Every step keeps them ----------

  lemma {:induction false} InOrderKept(s: State, a: Action)
    requires Enabled(s, a) && InOrder(s)
    ensures InOrder(Next(s, a))
  {
    match a
    case WorkerStep => InOrderKeptByWorker(s);
    case ClientStep(i) => InOrderKeptByClient(s, i);
    case _ =>
  }

  lemma {:induction false} InOrderKeptByWorker(s: State)
    requires WorkerEnabled(s) && InOrder(s)
    ensures InOrder(NextWorker(s))
  {
    if s.worker.Take? && |s.queue| > 0 {
      assert s.queue == [s.queue[0]] + s.queue[1..];
    }
  }

  lemma {:induction false} InOrderKeptByClient(s: State, i: nat)
    requires i < |s.clients| && ClientEnabled(s, s.clients[i]) && InOrder(s)
    ensures InOrder(NextClient(s, i))
  {
    if s.clients[i].PushLocked? {
      Associative(s.written + InFlight(s.worker), s.queue, [s.clients[i].e]);
    }
  }

  lemma {:induction false} QueueMutexKept(s: State, a: Action)
    requires Enabled(s, a) && QueueMutex(s)
    ensures QueueMutex(Next(s, a))
  {
    match a
    case WorkerStep => QueueMutexKeptByWorker(s);
    case ClientStep(i) => QueueMutexKeptByClient(s, i);
    case _ =>
  }

  lemma {:induction false} QueueMutexKeptByWorker(s: State)
    requires WorkerEnabled(s) && QueueMutex(s)
    ensures QueueMutex(NextWorker(s))
  {
  }

  lemma {:induction false} QueueMutexKeptByClient(s: State, i: nat)
    requires i < |s.clients| && ClientEnabled(s, s.clients[i]) && QueueMutex(s)
    ensures QueueMutex(NextClient(s, i))
  {
  }

  lemma {:induction false} FileMutexKept(s: State, a: Action)
    requires Enabled(s, a) && FileMutex(s)
    ensures FileMutex(Next(s, a))
  {
    match a
    case WorkerStep => FileMutexKeptByWorker(s);
    case ClientStep(i) => FileMutexKeptByClient(s, i);
    case _ =>
  }

  lemma {:induction false} FileMutexKeptByWorker(s: State)
    requires WorkerEnabled(s) && FileMutex(s)
    ensures FileMutex(NextWorker(s))
  {
  }

  lemma {:induction false} FileMutexKeptByClient(s: State, i: nat)
    requires i < |s.clients| && ClientEnabled(s, s.clients[i]) && FileMutex(s)
    ensures FileMutex(NextClient(s, i))
  {
  }

  lemma {:induction false} WakeupKept(s: State, a: Action)
    requires Enabled(s, a) && QueueMutex(s) && NoLostWakeup(s)
    ensures NoLostWakeup(Next(s, a))
  {
    var t := Next(s, a);
    if t.worker.Blocked? && (|t.queue| > 0 || t.stop) {
      if a.ClientStep? && OwesNotify(t.clients[a.i]) {
      } else {
        var i :| 0 <= i < |s.clients| && OwesNotify(s.clients[i]);
        assert OwesNotify(t.clients[i]);
      }
    }
  }

  lemma {:induction false} ShutdownKept(s: State, a: Action)
    requires Enabled(s, a) && QueueMutex(s) && Shutdown(s)
    ensures Shutdown(Next(s, a))
  {
  }

  lemma {:induction false} TextSnoc(lines: seq<Entry>, e: Entry)
    ensures Text(lines + [e]) == Text(lines) + e.line
  {
    assert (lines + [e])[..|lines|] == lines;
  }

  /** One more character of a line, or its end. */
  lemma {:induction false} LineGrows(text: string, line: string, k: nat)
    requires k <= |line|
    ensures text + line[..0] == text
    ensures k < |line| ==> text + line[..k] + [line[k]] == text + line[..k + 1]
    ensures k == |line| ==> line[..k] == line
  {
  }

  lemma {:induction false} FileKeptByWorker(s: State)
    requires WorkerEnabled(s) && FileMutex(s) && Shutdown(s) && FileOk(s)
    ensures FileOk(NextWorker(s))
  {
    match s.worker {
      case Have(e) =>
        if e.line.Some? {
          LineGrows(Text(s.lines), e.line.value, 0);
        }
      case Writing(e, line, k) =>
        LineGrows(Text(s.lines), line, k);
        TextSnoc(s.lines, Entry(Worker, line));
      case _ =>
    }
  }

  lemma {:induction false} FileKeptByClient(s: State, i: nat)
    requires i < |s.clients| && ClientEnabled(s, s.clients[i]) && FileMutex(s) && Shutdown(s) && FileOk(s)
    ensures FileOk(NextClient(s, i))
  {
    match s.clients[i] {
      case Write(e) =>
        if e.line.Some? {
          LineGrows(Text(s.lines), e.line.value, 0);
        }
      case WriteLine(e, line, k) =>
        LineGrows(Text(s.lines), line, k);
        TextSnoc(s.lines, Entry(Client(i), line));
      case _ =>
    }
  }

  lemma {:induction false} FileKept(s: State, a: Action)
    requires Enabled(s, a) && FileMutex(s) && Shutdown(s) && FileOk(s)
    ensures FileOk(Next(s, a))
  {
    match a
    case WorkerStep => FileKeptByWorker(s);
    case ClientStep(i) => FileKeptByClient(s, i);
    case _ =>
  }

  lemma {:induction false} OneMoreLine(lines: seq<Entry>, e: Entry, author: Thread)
    ensures LinesBy(lines + [e], author) == if e.author == author then LinesBy(lines, author) + [e.line] else LinesBy(lines, author)
  {
    assert (lines + [e])[..|lines|] == lines;
  }

  lemma {:induction false} OneMoreEvent(events: seq<Event>, e: Event)
    ensures LinesOf(events + [e]) == if e.line.Some? then LinesOf(events) + [e.line.value] else LinesOf(events)
  {
    assert (events + [e])[..|events|] == events;
  }

  lemma {:induction false} LinesKeptByWorker(s: State)
    requires WorkerEnabled(s) && FileOk(s) && LinesMatch(s)
    ensures LinesMatch(NextWorker(s))
  {
    match s.worker {
      case Have(e) => OneMoreEvent(s.written, e);
      case Writing(e, line, k) =>
        OneMoreEvent(s.written, e);
        OneMoreLine(s.lines, Entry(Worker, line), Worker);
        OneMoreLine(s.lines, Entry(Worker, line), Client(0));
      case _ =>
    }
  }

  lemma {:induction false} LinesKeptByClient(s: State, i: nat)
    requires i < |s.clients| && ClientEnabled(s, s.clients[i])
    requires FileMutex(s) && Shutdown(s) && FileOk(s) && LinesMatch(s)
    ensures LinesMatch(NextClient(s, i))
  {
    match s.clients[i] {
      case Write(e) => OneMoreEvent(s.direct, e);
      case WriteLine(e, line, k) =>
        assert i == 0 && !s.worker.Writing? && e.line == Some(line);
        DirectLine(s.lines, s.direct, e, line);
      case _ =>
    }
  }

  /** The main thread's line of an event it has written. */
  lemma {:induction false} DirectLine(lines: seq<Entry>, direct: seq<Event>, e: Event, line: string)
    requires e.line == Some(line) && LinesBy(lines, Client(0)) == LinesOf(direct)
    ensures var more := lines + [Entry(Client(0), line)];
            LinesBy(more, Client(0)) == LinesOf(direct + [e]) && LinesBy(more, Worker) == LinesBy(lines, Worker)
  {
    OneMoreEvent(direct, e);
    OneMoreLine(lines, Entry(Client(0), line), Worker);
    OneMoreLine(lines, Entry(Client(0), line), Client(0));
  }

  lemma {:induction false} LinesKept(s: State, a: Action)
    requires Enabled(s, a) && FileMutex(s) && Shutdown(s) && FileOk(s) && LinesMatch(s)
    ensures LinesMatch(Next(s, a))
  {
    match a
    case WorkerStep => LinesKeptByWorker(s);
    case ClientStep(i) => LinesKeptByClient(s, i);
    case _ =>
  }

  lemma {:induction false} InvKept(s: State, a: Action)
    requires Enabled(s, a) && Inv(s)
    ensures Inv(Next(s, a))
  {
    InOrderKept(s, a);
    QueueMutexKept(s, a);
    FileMutexKept(s, a);
    WakeupKept(s, a);
    ShutdownKept(s, a);
    FileKept(s, a);
    LinesKept(s, a);
  }

  // ---------- Runs ----------

  ghost predicate IsRun(states: seq<State>, actions: seq<Action>) {
    && |states| == |actions| + 1 && Init(states[0])
    && forall n | 0 <= n < |actions| :: StepsAt(states, actions, n)
  }

  ghost predicate StepsAt(states: seq<State>, actions: seq<Action>, n: nat)
    requires n < |actions| && |states| == |actions| + 1
  {
    Steps(states[n], actions[n], states[n + 1])
  }

  ghost predicate Steps(s: State, a: Action, t: State) {
    Enabled(s, a) && t == Next(s, a)
  }

  /** Every reachable state satisfies the invariants. */
  lemma {:induction false} Safety(states: seq<State>, actions: seq<Action>, n: nat)
    requires IsRun(states, actions) && n < |states|
    ensures Inv(states[n])
  {
    if n == 0 {
    } else {
      Safety(states, actions, n - 1);
      assert StepsAt(states, actions, n - 1);
      InvKept(states[n - 1], actions[n - 1]);
    }
  }

  // ---------- What is asked for ----------

  /** The machine starts with any number of clients; an idle one may begin a push at any time, the main
      thread also a direct write or finalize; and a wait may return for no reason. */
  lemma {:induction false} NothingExcluded(s: State, i: nat, op: Operation, n: nat)
    requires i < |s.clients| && s.clients[i] == Idle && (i == 0 || op.DoPush?) && n > 0
    ensures Enabled(s, Begin(i, op))
    ensures s.worker.Blocked? ==> Enabled(s, Spurious) && Next(s, Spurious).worker == Woken
    ensures var t := State(Lock, seq(n, _ => Idle), None, None, [], false, "[\n", [], [], [], [], []); Init(t)
  {
  }

  predicate IsPushing(pc: ClientPc, e: Event) { (pc.Push? || pc.PushLocked?) && pc.e == e }

  /** How many clients are about to push the event. */
  function Pushing(clients: seq<ClientPc>, e: Event): nat {
    if |clients| == 0 then 0
    else Pushing(clients[..|clients| - 1], e) + if IsPushing(clients[|clients| - 1], e) then 1 else 0
  }

  /** How many of the first `n` steps began a push of the event. */
  function Asked(actions: seq<Action>, n: nat, e: Event): nat
    requires n <= |actions|
  {
    if n == 0 then 0 else Asked(actions, n - 1, e) + AskedBy(actions[n - 1], e)
  }

  function AskedBy(a: Action, e: Event): nat {
    if a.Begin? && a.op == DoPush(e) then 1 else 0
  }

  lemma {:induction false} PushingMoves(clients: seq<ClientPc>, i: nat, pc: ClientPc, e: Event)
    requires i < |clients|
    ensures Pushing(clients[i := pc], e) + (if IsPushing(clients[i], e) then 1 else 0)
         == Pushing(clients, e) + if IsPushing(pc, e) then 1 else 0
  {
    var n := |clients| - 1;
    if i < n {
      PushingMoves(clients[..n], i, pc, e);
      assert clients[i := pc][..n] == clients[..n][i := pc];
    } else {
      assert clients[i := pc][..n] == clients[..n];
    }
  }

  lemma {:induction false} PushStep(s: State, a: Action, e: Event)
    requires Enabled(s, a)
    ensures multiset(Next(s, a).pushed)[e] + Pushing(Next(s, a).clients, e)
         == multiset(s.pushed)[e] + Pushing(s.clients, e) + AskedBy(a, e)
  {
    match a
    case ClientStep(i) =>
      PushingMoves(s.clients, i, NextClient(s, i).clients[i], e);
      OneClientPushes(s, i, e);
    case Begin(i, op) => PushingMoves(s.clients, i, Begun(op), e);
    case _ =>
  }

  /** A client's step pushes the event it is about to push, or none. */
  lemma {:induction false} OneClientPushes(s: State, i: nat, e: Event)
    requires i < |s.clients| && ClientEnabled(s, s.clients[i])
    ensures multiset(NextClient(s, i).pushed)[e] + (if IsPushing(NextClient(s, i).clients[i], e) then 1 else 0)
         == multiset(s.pushed)[e] + if IsPushing(s.clients[i], e) then 1 else 0
  {
    if s.clients[i].PushLocked? {
      OneMorePushed(s.pushed, s.clients[i].e, e);
    } else {
      assert NextClient(s, i).pushed == s.pushed;
    }
  }

  lemma {:induction false} OneMorePushed(pushed: seq<Event>, e: Event, f: Event)
    ensures multiset(pushed + [e])[f] == multiset(pushed)[f] + if e == f then 1 else 0
  {
  }

  lemma {:induction false} NobodyPushing(clients: seq<ClientPc>, e: Event)
    requires forall i | 0 <= i < |clients| :: clients[i] == Idle
    ensures Pushing(clients, e) == 0
  {
    if |clients| == 0 {
    } else {
      NobodyPushing(clients[..|clients| - 1], e);
    }
  }

  /** In every reachable state each event has been pushed, or is about to be, exactly as often as asked. */
  lemma {:induction false} PushesAccounted(states: seq<State>, actions: seq<Action>, n: nat, e: Event)
    requires IsRun(states, actions) && n < |states|
    ensures multiset(states[n].pushed)[e] + Pushing(states[n].clients, e) == Asked(actions, n, e)
  {
    if n == 0 {
      NobodyPushing(states[0].clients, e);
    } else {
      PushesAccounted(states, actions, n - 1, e);
      assert StepsAt(states, actions, n - 1);
      PushStep(states[n - 1], actions[n - 1], e);
    }
  }

  /** The event the main thread is writing itself. */
  function UnderWay(pc: ClientPc): seq<Event> {
    match pc
    case Write(e) => [e]
    case WriteLine(e, _, _) => [e]
    case _ => []
  }

  /** The events of the direct writes begun among the first `n` steps. */
  function AskedWrites(actions: seq<Action>, n: nat): seq<Event>
    requires n <= |actions|
  {
    if n == 0 then []
    else AskedWrites(actions, n - 1)
         + if actions[n - 1].Begin? && actions[n - 1].op.DoWrite? then [actions[n - 1].op.e] else []
  }

  lemma {:induction false} DirectStep(s: State, a: Action)
    requires Enabled(s, a) && Shutdown(s)
    ensures Next(s, a).direct + UnderWay(Next(s, a).clients[0])
         == s.direct + UnderWay(s.clients[0]) + if a.Begin? && a.op.DoWrite? then [a.op.e] else []
  {
  }

  /** In every reachable state the direct writes made, and the one under way, are those asked for. */
  lemma {:induction false} WritesAccounted(states: seq<State>, actions: seq<Action>, n: nat)
    requires IsRun(states, actions) && n < |states|
    ensures |states[n].clients| > 0 && states[n].direct + UnderWay(states[n].clients[0]) == AskedWrites(actions, n)
  {
    if n > 0 {
      WritesAccounted(states, actions, n - 1);
      ShutdownAt(states, actions, n - 1);
      assert StepsAt(states, actions, n - 1);
      DirectStep(states[n - 1], actions[n - 1]);
    }
  }

  lemma {:induction false} ShutdownAt(states: seq<State>, actions: seq<Action>, n: nat)
    requires IsRun(states, actions) && n < |states|
    ensures Shutdown(states[n])
  {
    Safety(states, actions, n);
  }

  // ---------- Finalize ----------

  /** The main thread's finalize has returned. */
  predicate Finished(s: State) { |s.clients| > 0 && s.clients[0].Done? }

  /** When finalize returns, the file is the bracket, whole lines and the bracket; the worker has
      written, once and in order, everything but what was pushed after it had exited. */
  lemma {:induction false} Finalized(states: seq<State>, actions: seq<Action>, n: nat)
    requires IsRun(states, actions) && n < |states| && Finished(states[n])
    ensures var s := states[n];
            && s.file == Text(s.lines) + "]"
            && LinesBy(s.lines, Worker) == LinesOf(s.written)
            && LinesBy(s.lines, Client(0)) == LinesOf(s.direct)
            && s.written + s.late == s.pushed
            && (s.written == s.pushed <==> s.late == [])
  {
    Safety(states, actions, n);
    var s := states[n];
    assert s.written + [] + s.queue == s.written + s.queue;
    assert s.written == s.pushed ==> |s.late| == 0;
  }

  /** At step `m` finalize has begun, nobody is still waiting to push, and nobody begins to. */
  ghost predicate NoPushFrom(states: seq<State>, actions: seq<Action>, m: nat)
    requires IsRun(states, actions)
  {
    && m < |states| && |states[m].clients| > 0 && states[m].clients[0].Stop?
    && (forall i | 1 <= i < |states[m].clients| :: !states[m].clients[i].Push?)
    && (forall n | m <= n < |actions| :: !actions[n].Begin?)
  }

  /** Finalize has begun, a push under way has the mutex that finalize still waits for or has queued its
      event, and nothing has been pushed too late. */
  ghost predicate OnlyFinalizing(s: State) {
    && |s.clients| > 0 && s.late == []
    && (s.clients[0].Stop? || s.clients[0].StopLocked? || Stopping(s.clients[0]))
    && forall i | 1 <= i < |s.clients| :: BeforeStop(s.clients[0], s.clients[i])
  }

  predicate BeforeStop(main: ClientPc, pc: ClientPc) { !pc.Push? && (pc.PushLocked? ==> main.Stop?) }

  lemma {:induction false} OnlyFinalizingKept(s: State, a: Action)
    requires OnlyFinalizing(s) && Enabled(s, a) && !a.Begin? && QueueMutex(s) && Shutdown(s)
    ensures OnlyFinalizing(Next(s, a))
  {
  }

  lemma {:induction false} NothingLate(states: seq<State>, actions: seq<Action>, m: nat, n: nat)
    requires IsRun(states, actions) && NoPushFrom(states, actions, m) && m <= n < |states|
    ensures OnlyFinalizing(states[n])
  {
    if n == m {
      Safety(states, actions, m);
    } else {
      NothingLate(states, actions, m, n - 1);
      Safety(states, actions, n - 1);
      assert StepsAt(states, actions, n - 1);
      OnlyFinalizingKept(states[n - 1], actions[n - 1]);
    }
  }

  /** If nobody begins or still waits to push once finalize has begun, everything pushed is written when
      it returns. */
  lemma {:induction false} AllWritten(states: seq<State>, actions: seq<Action>, m: nat, n: nat)
    requires IsRun(states, actions) && NoPushFrom(states, actions, m) && m <= n < |states|
    requires Finished(states[n])
    ensures states[n].written == states[n].pushed
    ensures LinesBy(states[n].lines, Worker) == LinesOf(states[n].pushed)
  {
    Finalized(states, actions, n);
    NothingLate(states, actions, m, n);
  }

  // ---------- Progress ----------

  /** Nothing is left to do: the worker sleeps with an empty queue or has exited, and no client is in
      the middle of a call. */
  ghost predicate AtRest(s: State) {
    && (s.worker.Exited? || (s.worker.Blocked? && s.queue == [] && !s.stop))
    && forall i | 0 <= i < |s.clients| :: s.clients[i].Idle? || s.clients[i].Done?
  }

  /** Neither a spurious wakeup nor a new call. */
  predicate Works(a: Action) { a.WorkerStep? || a.ClientStep? }

  /** No deadlock: unless everything is at rest some thread can go on, without spurious wakeups. */
  lemma {:induction false} SomeoneCanGoOn(s: State) returns (a: Action)
    requires Inv(s) && !AtRest(s)
    ensures Works(a) && Enabled(s, a)
  {
    if WorkerEnabled(s) {
      return WorkerStep;
    }
    if s.queueOwner.Some? && s.queueOwner.value.Client? {
      var i := s.queueOwner.value.i;
      assert HoldsQueue(s.clients[i]);
      return ClientStep(i);
    }
    if s.fileOwner.Some? && s.fileOwner.value.Client? {
      var i := s.fileOwner.value.i;
      assert s.clients[i].WriteLine?;
      return ClientStep(i);
    }
    if s.worker.Blocked? && (|s.queue| > 0 || s.stop) {
      var i :| 0 <= i < |s.clients| && OwesNotify(s.clients[i]);
      return ClientStep(i);
    }
    var i :| 0 <= i < |s.clients| && !s.clients[i].Idle? && !s.clients[i].Done?;
    return ClientStep(i);
  }

  /** How long an event or a line keeps a thread busy. */
  function Weight(e: Event): nat {
    10 + if e.line.Some? then |e.line.value| else 0
  }

  function QueueWork(queue: seq<Event>): nat {
    if |queue| == 0 then 0 else Weight(queue[0]) + QueueWork(queue[1..])
  }

  function WorkerWork(worker: WorkerPc): nat {
    match worker
    case Blocked => 0
    case Exited => 0
    case Take => 4
    case Check => 5
    case Lock => 6
    case Woken => 6
    case Have(e) => Weight(e) - 1 + 4
    case Writing(_, line, k) => 7 + if k <= |line| then |line| - k else 0
  }

  function ClientWork(pc: ClientPc): nat {
    match pc
    case Idle => 0
    case Done => 0
    case Push(e) => 10 + Weight(e)
    case PushLocked(e) => 9 + Weight(e)
    case Pushed => 8
    case Notify => 7
    case Write(e) => Weight(e)
    case WriteLine(_, line, k) => 1 + if k <= |line| then |line| - k else 0
    case Stop => 12
    case StopLocked => 11
    case StopSet => 10
    case StopNotify => 9
    case Join => 2
    case Close => 1
  }

  function ClientsWork(clients: seq<ClientPc>): nat {
    if |clients| == 0 then 0 else ClientsWork(clients[..|clients| - 1]) + ClientWork(clients[|clients| - 1])
  }

  function Work(s: State): nat {
    QueueWork(s.queue) + WorkerWork(s.worker) + ClientsWork(s.clients)
  }

  lemma {:induction false} OneClientMoves(clients: seq<ClientPc>, i: nat, pc: ClientPc)
    requires i < |clients|
    ensures ClientsWork(clients[i := pc]) + ClientWork(clients[i]) == ClientsWork(clients) + ClientWork(pc)
  {
    var n := |clients| - 1;
    if i < n {
      OneClientMoves(clients[..n], i, pc);
      assert clients[i := pc][..n] == clients[..n][i := pc];
    } else {
      assert clients[i := pc][..n] == clients[..n];
    }
  }

  lemma {:induction false} QueueWorkSnoc(queue: seq<Event>, e: Event)
    ensures QueueWork(queue + [e]) == QueueWork(queue) + Weight(e)
  {
    if |queue| == 0 {
    } else {
      QueueWorkSnoc(queue[1..], e);
      assert (queue + [e])[1..] == queue[1..] + [e];
    }
  }

  lemma {:induction false} WorkerShrinks(s: State)
    requires QueueMutex(s) && WorkerEnabled(s)
    ensures QueueWork(NextWorker(s).queue) + WorkerWork(NextWorker(s).worker) < QueueWork(s.queue) + WorkerWork(s.worker)
  {
    match s.worker {
      case Writing(e, line, k) =>
      case Have(e) =>
      case _ =>
    }
  }

  lemma {:induction false} ClientShrinks(s: State, i: nat)
    requires i < |s.clients| && ClientEnabled(s, s.clients[i])
    ensures var t := NextClient(s, i);
            QueueWork(t.queue) + WorkerWork(t.worker) + ClientWork(t.clients[i])
            < QueueWork(s.queue) + WorkerWork(s.worker) + ClientWork(s.clients[i])
  {
    if s.clients[i].PushLocked? {
      QueueWorkSnoc(s.queue, s.clients[i].e);
    }
  }

  /** Every step that is neither a spurious wakeup nor a new call leaves less to do. */
  lemma {:induction false} WorkShrinks(s: State, a: Action)
    requires Inv(s) && Enabled(s, a) && Works(a)
    ensures Work(Next(s, a)) < Work(s)
  {
    match a
    case WorkerStep => WorkerShrinks(s);
    case ClientStep(i) =>
      ClientShrinks(s, i);
      OneClientMoves(s.clients, i, NextClient(s, i).clients[i]);
  }

  /** So once no more calls are made, and but for spurious wakeups, every run comes to rest: it is at
      most as long as the work left, and by SomeoneCanGoOn it does not end before. */
  lemma {:induction false} ComesToRest(states: seq<State>, actions: seq<Action>, m: nat, n: nat)
    requires IsRun(states, actions) && m <= n < |states|
    requires forall k | m <= k < n :: Works(actions[k])
    ensures n - m + Work(states[n]) <= Work(states[m])
  {
    if m < n {
      ComesToRest(states, actions, m, n - 1);
      StepShrinks(states, actions, n - 1);
    }
  }

  lemma {:induction false} StepShrinks(states: seq<State>, actions: seq<Action>, n: nat)
    requires IsRun(states, actions) && n < |actions| && Works(actions[n])
    ensures Work(states[n + 1]) < Work(states[n])
  {
    Safety(states, actions, n);
    assert StepsAt(states, actions, n);
    WorkShrinks(states[n], actions[n]);
  }

  /** At rest a begun finalize has returned. */
  lemma {:induction false} RestIsDone(s: State)
    requires Inv(s) && AtRest(s) && s.stop
    ensures s.clients[0].Done? && s.worker.Exited?
  {
  }
}
