/** What the tracer's maps and output mean in terms of the calls made so far, without any map: every
    value is that of the latest call of the right kind. */
module TracerHistory {
  import opened Common
  import opened PathHash
  import opened Tracer

  /** What to look for among the calls. */
  datatype Query =
    | Membership(thread: U32)  // a thread starting or ceasing to be traced
    | EntryOf(key: Tracer.Key)
    | FdOf(key: Tracer.Key)
    | PathOf(key: Tracer.Key)
    | OpenOf(file: File)
    | HashOf(memoKey: MemoKey) // a path's hash being stored or removed

  function KeyOf(call: Call): Tracer.Key
    requires call.Entry? || call.Exit? || call.ForkExit? || call.FdEntry? || call.IoExit? || call.OpenEntry? || call.OpenExit?
  {
    Key(call.id, call.event)
  }

  /** The latest of the first `n` calls that answers the query. */
  ghost function Last(c: Config, h: seq<Call>, n: nat, q: Query): (r: Option<nat>)
    requires n <= |h|
    decreases n, 0
    ensures r.Some? ==> r.value < n && Answers(c, h, r.value, q)
  {
    if n == 0 then None else if Answers(c, h, n - 1, q) then Some(n - 1) else Last(c, h, n - 1, q)
  }

  ghost predicate Answers(c: Config, h: seq<Call>, i: nat, q: Query)
    requires i < |h|
    decreases i, 4
  {
    match q
    case Membership(t) => Enrols(c, h, i, t) || Leaves(h, i, t)
    case EntryOf(key) => IsEntry(h[i]) && KeyOf(h[i]) == key && Traced(c, h, i)
    case FdOf(key) => h[i].FdEntry? && KeyOf(h[i]) == key && Traced(c, h, i)
    case PathOf(key) => h[i].OpenEntry? && h[i].included && KeyOf(h[i]) == key && Traced(c, h, i)
    case OpenOf(file) =>
      && h[i].OpenExit? && h[i].id == file.id && Returned(h[i].rc, file.fd)
      && h[i].room && Qualifies(c, h, i) && Last(c, h, i, PathOf(KeyOf(h[i]))).Some?
    case HashOf(key) =>
      || (h[i].OpenEntry? && h[i].included && PathHash.Key(h[i].path) == key && Traced(c, h, i))
      || (h[i].Forget? && key in h[i].keys)
  }

  /** An open returned the descriptor: its value, as a C int, is `fd` and positive. */
  predicate Returned(rc: U64, fd: int) { 0 < fd < 0x8000_0000 && rc % 0x1_0000_0000 == fd }

  lemma {:induction false} ReturnedExact(rc: U64, fd: int)
    ensures Returned(rc, fd) <==> AsInt(rc) == fd > 0
  {
  }

  /** An entry that is recorded when its thread is traced. */
  predicate IsEntry(call: Call) {
    call.Entry? || call.FdEntry? || (call.OpenEntry? && call.included)
  }

  predicate IsExit(call: Call) {
    call.Exit? || call.ForkExit? || call.IoExit? || call.OpenExit?
  }

  function ExitTime(call: Call): U64
    requires IsExit(call)
  {
    if call.ForkExit? then call.exitClock else call.clock
  }

  predicate Leaves(h: seq<Call>, i: nat, t: U32)
    requires i < |h|
  {
    h[i].Stop? && Thread(h[i].id) == t
  }

  /** The call makes thread `t` traced: its own start, or its creation by a traced thread. */
  ghost predicate Enrols(c: Config, h: seq<Call>, i: nat, t: U32)
    requires i < |h|
    decreases i, 3
  {
    || (h[i].Start? && Thread(h[i].id) == t)
    || (h[i].ForkExit? && Word(h[i].rc) == t != 0 && Traced(c, h, i))
  }

  /** Thread `t` has been enrolled and has not stopped since. */
  ghost predicate Tracked(c: Config, h: seq<Call>, n: nat, t: U32)
    requires n <= |h|
    ensures Tracked(c, h, n, t) ==> var last := Last(c, h, n, Membership(t)); last.Some? && Enrols(c, h, last.value, t)
    decreases n, 1
  {
    var last := Last(c, h, n, Membership(t));
    last.Some? && !h[last.value].Stop?
  }

  /** Call `i` is made by a traced thread. */
  ghost predicate Traced(c: Config, h: seq<Call>, i: nat)
    requires i < |h|
    decreases i, 2
  {
    !h[i].Forget? && (c.traceAll || (h[i].id != 0 && Tracked(c, h, i, Thread(h[i].id))))
  }

  /** The exit has an entry, which was long enough ago. */
  ghost predicate Qualifies(c: Config, h: seq<Call>, i: nat)
    requires i < |h|
    decreases i, 3
  {
    && IsExit(h[i]) && Traced(c, h, i)
    && var e := Last(c, h, i, EntryOf(KeyOf(h[i])));
       e.Some? && Elapsed(ExitTime(h[i]), h[e.value].clock) >= c.skip
  }

  /** When thread `t` came to be traced: a start by a thread that is traced already changes nothing. */
  ghost function Since(c: Config, h: seq<Call>, n: nat, t: U32): U64
    requires n <= |h| && Tracked(c, h, n, t)
  {
    var i := Last(c, h, n, Membership(t)).value;
    if h[i].Start? && Tracked(c, h, i, t) then Since(c, h, i, t) else h[i].clock
  }

  /** The hash of the path named by the latest recorded entry before the exit `x` of an open. */
  ghost function OpenedHash(c: Config, h: seq<Call>, x: nat): U32
    requires x < |h| && h[x].OpenExit?
  {
    match Last(c, h, x, PathOf(KeyOf(h[x])))
    case None => 0
    case Some(o) => Hash(h[o].path)
  }

  /** The hash reported for the descriptor of call `i`: that of the latest recorded open by the same
      thread that returned the descriptor its latest recorded entry was given. */
  ghost function Attributed(c: Config, h: seq<Call>, i: nat): U32
    requires i < |h| && h[i].IoExit?
  {
    match Last(c, h, i, FdOf(KeyOf(h[i])))
    case None => 0
    case Some(f) =>
      match Last(c, h, i, OpenOf(File(h[i].id, h[f].fd)))
      case None => 0
      case Some(x) => OpenedHash(c, h, x)
  }

  /** The record call `i` has to report, if any. */
  ghost function Due(c: Config, h: seq<Call>, i: nat): Option<Record>
    requires i < |h|
  {
    if h[i].Start? then
      var t := Thread(h[i].id);
      Some(General(h[i].id, START_EVENT, if Tracked(c, h, i, t) then Since(c, h, i, t) else h[i].clock, 0))
    else if h[i].Stop? then Some(General(h[i].id, STOP_EVENT, h[i].clock, 0))
    else if !Qualifies(c, h, i) then None
    else
      var key, ts := KeyOf(h[i]), h[Last(c, h, i, EntryOf(KeyOf(h[i]))).value].clock;
      var dur := Elapsed(ExitTime(h[i]), ts);
      if h[i].IoExit? then Some(Io(key.id, key.event, ts, dur, Attributed(c, h, i), if h[i].data then h[i].rc else 0))
      else if h[i].OpenExit? then Some(Io(key.id, key.event, ts, dur, OpenedHash(c, h, i), 0))
      else Some(General(key.id, key.event, ts, dur))
  }

  predicate Room(call: Call) {
    match call
    case Exit(_, _, _, room) => room
    case ForkExit(_, _, _, _, _, room) => room
    case Start(_, _, room) => room
    case Stop(_, _, room) => room
    case IoExit(_, _, _, _, _, room) => room
    case OpenExit(_, _, _, _, room) => room
    case _ => false
  }

  /** The calls among the first `n` whose records reached the ring buffer, and those whose did not. */
  ghost function Reported(c: Config, h: seq<Call>, n: nat, room: bool): (r: seq<nat>)
    requires n <= |h|
    ensures forall k | 0 <= k < |r| :: r[k] < n
  {
    if n == 0 then []
    else if Due(c, h, n - 1).Some? && Room(h[n - 1]) == room then Reported(c, h, n - 1, room) + [n - 1]
    else Reported(c, h, n - 1, room)
  }

  // ---------- The maps agree with the history ----------

  ghost predicate PidsAgree(c: Config, h: seq<Call>, n: nat, pids: map<U32, U64>)
    requires n <= |h|
  {
    && (forall t: U32 :: t in pids <==> Tracked(c, h, n, t))
    && (forall t: U32 :: t in pids ==> pids[t] == Since(c, h, n, t))
  }

  ghost predicate EntriesAgree(c: Config, h: seq<Call>, n: nat, entries: map<Tracer.Key, U64>)
    requires n <= |h|
  {
    && (forall k: Tracer.Key :: k in entries <==> Last(c, h, n, EntryOf(k)).Some?)
    && (forall k: Tracer.Key :: k in entries ==> entries[k] == h[Last(c, h, n, EntryOf(k)).value].clock)
  }

  ghost predicate FdsAgree(c: Config, h: seq<Call>, n: nat, fds: map<Tracer.Key, int>)
    requires n <= |h|
  {
    && (forall k: Tracer.Key :: k in fds <==> Last(c, h, n, FdOf(k)).Some?)
    && (forall k: Tracer.Key :: k in fds ==> fds[k] == h[Last(c, h, n, FdOf(k)).value].fd)
  }

  ghost predicate NamesAgree(c: Config, h: seq<Call>, n: nat, names: map<Tracer.Key, U32>)
    requires n <= |h|
  {
    && (forall k: Tracer.Key :: k in names <==> Last(c, h, n, PathOf(k)).Some?)
    && (forall k: Tracer.Key :: k in names ==> names[k] == Hash(h[Last(c, h, n, PathOf(k)).value].path))
  }

  ghost predicate FilesAgree(c: Config, h: seq<Call>, n: nat, files: map<File, U32>)
    requires n <= |h|
  {
    && (forall f: File :: f in files <==> Last(c, h, n, OpenOf(f)).Some?)
    && (forall f: File :: f in files ==> files[f] == OpenedHash(c, h, Last(c, h, n, OpenOf(f)).value))
  }

  /** The memo holds the hashes of the paths opened and not forgotten since. */
  ghost predicate MemoAgrees(c: Config, h: seq<Call>, n: nat, memo: Memo)
    requires n <= |h|
  {
    && (forall k: MemoKey :: k in memo <==> Stored(c, h, n, k))
    && (forall k: MemoKey :: k in memo ==> memo[k] == Hash(h[Last(c, h, n, HashOf(k)).value].path))
  }

  ghost predicate Stored(c: Config, h: seq<Call>, n: nat, k: MemoKey)
    requires n <= |h|
  {
    var last := Last(c, h, n, HashOf(k));
    last.Some? && h[last.value].OpenEntry?
  }

  ghost predicate OutputAgrees(c: Config, h: seq<Call>, n: nat, output: seq<Record>)
    requires n <= |h|
  {
    var sent := Reported(c, h, n, true);
    |output| == |sent| && forall k | 0 <= k < |sent| :: Due(c, h, sent[k]) == Some(output[k])
  }

  ghost predicate FailedAgrees(c: Config, h: seq<Call>, n: nat, failed: map<U32, U32>)
    requires n <= |h|
  {
    var lost := Reported(c, h, n, false);
    failed == if |lost| == 0 then map[] else map[FAILED_KEY := Word(|lost|)]
  }

  ghost predicate Agrees(c: Config, h: seq<Call>, n: nat, s: State)
    requires n <= |h|
  {
    && PidsAgree(c, h, n, s.pids) && EntriesAgree(c, h, n, s.entries) && FdsAgree(c, h, n, s.fds)
    && NamesAgree(c, h, n, s.names) && FilesAgree(c, h, n, s.files)
    && Remembers(s.memo) && MemoAgrees(c, h, n, s.memo) && OutputAgrees(c, h, n, s.output) && FailedAgrees(c, h, n, s.failed)
  }

  lemma {:induction false} TracingAgrees(c: Config, h: seq<Call>, n: nat, s: State)
    requires n < |h| && PidsAgree(c, h, n, s.pids) && !h[n].Forget?
    ensures NeedTracing(c, s, h[n].id) <==> Traced(c, h, n)
  {
  }

  lemma {:induction false} ReportsAgree(c: Config, h: seq<Call>, n: nat, s: State)
    requires n < |h| && PidsAgree(c, h, n, s.pids) && EntriesAgree(c, h, n, s.entries) && IsExit(h[n])
    ensures Reports(c, s, KeyOf(h[n]), ExitTime(h[n])) <==> Qualifies(c, h, n)
  {
    TracingAgrees(c, h, n, s);
  }

  // ---------- What one step writes ----------

  lemma {:induction false} EntryWritten(c: Config, s: State, call: Call)
    ensures Step(c, s, call).entries
         == if IsEntry(call) && NeedTracing(c, s, call.id) then s.entries[KeyOf(call) := call.clock] else s.entries
  {
  }

  lemma {:induction false} FdWritten(c: Config, s: State, call: Call)
    ensures Step(c, s, call).fds
         == if call.FdEntry? && NeedTracing(c, s, call.id) then s.fds[KeyOf(call) := call.fd] else s.fds
  {
  }

  lemma {:induction false} NameWritten(c: Config, s: State, call: Call)
    requires Remembers(s.memo)
    ensures Step(c, s, call).names
         == if call.OpenEntry? && call.included && NeedTracing(c, s, call.id)
            then s.names[KeyOf(call) := Hash(call.path)] else s.names
    ensures Remembers(Step(c, s, call).memo)
  {
    if call.OpenEntry? {
      StillRemembers(s.memo, call.path);
    }
  }

  lemma {:induction false} FileWritten(c: Config, s: State, call: Call)
    ensures Step(c, s, call).files
         == if && call.OpenExit? && call.room && AsInt(call.rc) > 0
               && Reports(c, s, KeyOf(call), call.clock) && KeyOf(call) in s.names
            then s.files[File(call.id, AsInt(call.rc)) := s.names[KeyOf(call)]] else s.files
  {
  }

  lemma {:induction false} PidsWritten(c: Config, s: State, call: Call)
    ensures Step(c, s, call).pids
         == match call
            case Start(id, clock, _) => s.pids[Thread(id) := if Thread(id) in s.pids then s.pids[Thread(id)] else clock]
            case Stop(id, _, _) => s.pids - {Thread(id)}
            case ForkExit(id, _, clock, rc, _, _) =>
              if NeedTracing(c, s, id) && Word(rc) != 0 then s.pids[Word(rc) := clock] else s.pids
            case _ => s.pids
  {
  }

  // ---------- Every step keeps the agreement ----------

  lemma {:induction false} PidsStep(c: Config, h: seq<Call>, n: nat, s: State)
    requires n < |h| && PidsAgree(c, h, n, s.pids)
    ensures PidsAgree(c, h, n + 1, Step(c, s, h[n]).pids)
  {
    var after := Step(c, s, h[n]).pids;
    forall t: U32
      ensures t in after <==> Tracked(c, h, n + 1, t)
      ensures t in after ==> after[t] == Since(c, h, n + 1, t)
    {
      PidStep(c, h, n, s, t);
    }
  }

  lemma {:induction false} PidStep(c: Config, h: seq<Call>, n: nat, s: State, t: U32)
    requires n < |h| && PidsAgree(c, h, n, s.pids)
    ensures t in Step(c, s, h[n]).pids <==> Tracked(c, h, n + 1, t)
    ensures t in Step(c, s, h[n]).pids ==> Step(c, s, h[n]).pids[t] == Since(c, h, n + 1, t)
  {
    PidsWritten(c, s, h[n]);
    if !h[n].Forget? {
      TracingAgrees(c, h, n, s);
    }
    MembershipStep(c, h, n, t);
  }

  lemma {:induction false} MembershipStep(c: Config, h: seq<Call>, n: nat, t: U32)
    requires n < |h|
    ensures Tracked(c, h, n + 1, t) <==> Enrols(c, h, n, t) || (Tracked(c, h, n, t) && !Leaves(h, n, t))
    ensures Tracked(c, h, n + 1, t) ==>
              Since(c, h, n + 1, t) == if Enrols(c, h, n, t) && !(h[n].Start? && Tracked(c, h, n, t)) then h[n].clock
                                       else Since(c, h, n, t)
  {
    assert Last(c, h, n + 1, Membership(t))
        == if Answers(c, h, n, Membership(t)) then Some(n) else Last(c, h, n, Membership(t));
  }

  lemma {:induction false} EntriesStep(c: Config, h: seq<Call>, n: nat, s: State)
    requires n < |h| && PidsAgree(c, h, n, s.pids) && EntriesAgree(c, h, n, s.entries)
    ensures EntriesAgree(c, h, n + 1, Step(c, s, h[n]).entries)
  {
    EntryWritten(c, s, h[n]);
    if !h[n].Forget? {
      TracingAgrees(c, h, n, s);
    }
    LastStep(c, h, n);
  }

  lemma {:induction false} FdsStep(c: Config, h: seq<Call>, n: nat, s: State)
    requires n < |h| && PidsAgree(c, h, n, s.pids) && FdsAgree(c, h, n, s.fds)
    ensures FdsAgree(c, h, n + 1, Step(c, s, h[n]).fds)
  {
    FdWritten(c, s, h[n]);
    if !h[n].Forget? {
      TracingAgrees(c, h, n, s);
    }
    LastStep(c, h, n);
  }

  lemma {:induction false} NamesStep(c: Config, h: seq<Call>, n: nat, s: State)
    requires n < |h| && PidsAgree(c, h, n, s.pids) && NamesAgree(c, h, n, s.names) && Remembers(s.memo)
    ensures NamesAgree(c, h, n + 1, Step(c, s, h[n]).names) && Remembers(Step(c, s, h[n]).memo)
  {
    NameWritten(c, s, h[n]);
    if !h[n].Forget? {
      TracingAgrees(c, h, n, s);
    }
    LastStep(c, h, n);
  }

  lemma {:induction false} MemoWritten(c: Config, s: State, call: Call)
    ensures Step(c, s, call).memo
         == match call
            case OpenEntry(id, _, _, path, included) =>
              if included && NeedTracing(c, s, id) then Remember(s.memo, path) else s.memo
            case Forget(keys) => s.memo - keys
            case _ => s.memo
  {
  }

  lemma {:induction false} MemoStep(c: Config, h: seq<Call>, n: nat, s: State)
    requires n < |h| && PidsAgree(c, h, n, s.pids) && MemoAgrees(c, h, n, s.memo) && Remembers(s.memo)
    ensures MemoAgrees(c, h, n + 1, Step(c, s, h[n]).memo)
  {
    MemoWritten(c, s, h[n]);
    if !h[n].Forget? {
      TracingAgrees(c, h, n, s);
    }
    var after, m := Step(c, s, h[n]).memo, n + 1;
    forall k: MemoKey
      ensures k in after <==> Stored(c, h, m, k)
      ensures k in after ==> after[k] == Hash(h[Last(c, h, m, HashOf(k)).value].path)
    {
      HashRemembered(c, h, n, s.memo, after, k);
    }
  }

  lemma {:induction false} HashRemembered(c: Config, h: seq<Call>, n: nat, memo: Memo, after: Memo, k: MemoKey)
    requires n < |h| && MemoAgrees(c, h, n, memo) && Remembers(memo)
    requires after == match h[n]
                      case OpenEntry(_, _, _, path, included) =>
                        if included && Traced(c, h, n) then Remember(memo, path) else memo
                      case Forget(keys) => memo - keys
                      case _ => memo
    ensures k in after <==> Stored(c, h, n + 1, k)
    ensures k in after ==> after[k] == Hash(h[Last(c, h, n + 1, HashOf(k)).value].path)
  {
    assert Last(c, h, n + 1, HashOf(k)) == if Answers(c, h, n, HashOf(k)) then Some(n) else Last(c, h, n, HashOf(k));
  }

  lemma {:induction false} FilesStep(c: Config, h: seq<Call>, n: nat, s: State)
    requires n < |h| && PidsAgree(c, h, n, s.pids) && EntriesAgree(c, h, n, s.entries)
    requires NamesAgree(c, h, n, s.names) && FilesAgree(c, h, n, s.files)
    ensures FilesAgree(c, h, n + 1, Step(c, s, h[n]).files)
  {
    FileWritten(c, s, h[n]);
    if h[n].OpenExit? {
      ReportsAgree(c, h, n, s);
      OpenRecorded(c, h, n, s.names, s.files, Step(c, s, h[n]).files);
    } else {
      LastStep(c, h, n);
    }
  }

  lemma {:induction false} OpenRecorded(c: Config, h: seq<Call>, n: nat, names: map<Tracer.Key, U32>,
                                        files: map<File, U32>, after: map<File, U32>)
    requires n < |h| && h[n].OpenExit? && NamesAgree(c, h, n, names) && FilesAgree(c, h, n, files)
    requires after == if h[n].room && AsInt(h[n].rc) > 0 && Qualifies(c, h, n) && KeyOf(h[n]) in names
                      then files[File(h[n].id, AsInt(h[n].rc)) := names[KeyOf(h[n])]] else files
    ensures FilesAgree(c, h, n + 1, after)
  {
    var m := n + 1;
    forall f: File
      ensures f in after <==> Last(c, h, m, OpenOf(f)).Some?
      ensures f in after ==> after[f] == OpenedHash(c, h, Last(c, h, m, OpenOf(f)).value)
    {
      FileRecorded(c, h, n, names, files, after, f);
    }
  }

  lemma {:induction false} FileRecorded(c: Config, h: seq<Call>, n: nat, names: map<Tracer.Key, U32>,
                                        files: map<File, U32>, after: map<File, U32>, f: File)
    requires n < |h| && h[n].OpenExit? && NamesAgree(c, h, n, names) && FilesAgree(c, h, n, files)
    requires after == if h[n].room && AsInt(h[n].rc) > 0 && Qualifies(c, h, n) && KeyOf(h[n]) in names
                      then files[File(h[n].id, AsInt(h[n].rc)) := names[KeyOf(h[n])]] else files
    ensures f in after <==> Last(c, h, n + 1, OpenOf(f)).Some?
    ensures f in after ==> after[f] == OpenedHash(c, h, Last(c, h, n + 1, OpenOf(f)).value)
  {
    ReturnedExact(h[n].rc, f.fd);
    assert Last(c, h, n + 1, OpenOf(f)) == if Answers(c, h, n, OpenOf(f)) then Some(n) else Last(c, h, n, OpenOf(f));
    assert KeyOf(h[n]) in names <==> Last(c, h, n, PathOf(KeyOf(h[n]))).Some?;
  }

  /** The step took the record to the ring buffer, or counted its loss. */
  ghost predicate Delivers(r: Option<Record>, room: bool, s: State, t: State) {
    match r
    case None => t.output == s.output && t.failed == s.failed
    case Some(r) =>
      if room then t.output == s.output + [r] && t.failed == s.failed
      else t.output == s.output && t.failed == MarkFailed(s.failed)
  }

  lemma {:induction false} GeneralExitDelivers(c: Config, h: seq<Call>, n: nat, s: State)
    requires n < |h| && PidsAgree(c, h, n, s.pids) && EntriesAgree(c, h, n, s.entries)
    requires h[n].Exit? || h[n].ForkExit?
    ensures Delivers(Due(c, h, n), Room(h[n]), s, Step(c, s, h[n]))
  {
    ReportsAgree(c, h, n, s);
    assert Last(c, h, n, EntryOf(KeyOf(h[n]))).Some? <==> KeyOf(h[n]) in s.entries;
  }

  lemma {:induction false} IoExitDelivers(c: Config, h: seq<Call>, n: nat, s: State)
    requires n < |h| && Agrees(c, h, n, s) && h[n].IoExit?
    ensures Delivers(Due(c, h, n), Room(h[n]), s, Step(c, s, h[n]))
  {
    ReportsAgree(c, h, n, s);
    var key := KeyOf(h[n]);
    assert FileHash(s, key) == Attributed(c, h, n) by {
      assert key in s.fds <==> Last(c, h, n, FdOf(key)).Some?;
    }
  }

  lemma {:induction false} OpenExitDelivers(c: Config, h: seq<Call>, n: nat, s: State)
    requires n < |h| && Agrees(c, h, n, s) && h[n].OpenExit?
    ensures Delivers(Due(c, h, n), Room(h[n]), s, Step(c, s, h[n]))
  {
    ReportsAgree(c, h, n, s);
    var key := KeyOf(h[n]);
    assert key in s.names <==> Last(c, h, n, PathOf(key)).Some?;
  }

  lemma {:induction false} StartStopDelivers(c: Config, h: seq<Call>, n: nat, s: State)
    requires n < |h| && PidsAgree(c, h, n, s.pids) && (h[n].Start? || h[n].Stop?)
    ensures Delivers(Due(c, h, n), Room(h[n]), s, Step(c, s, h[n]))
  {
  }

  lemma {:induction false} OtherDelivers(c: Config, h: seq<Call>, n: nat, s: State)
    requires n < |h| && !IsExit(h[n]) && !h[n].Start? && !h[n].Stop?
    ensures Delivers(Due(c, h, n), Room(h[n]), s, Step(c, s, h[n]))
  {
    OthersKeepOutput(c, s, h[n]);
    assert Due(c, h, n) == None;
  }

  lemma {:induction false} OthersKeepOutput(c: Config, s: State, call: Call)
    requires !IsExit(call) && !call.Start? && !call.Stop?
    ensures Step(c, s, call).output == s.output && Step(c, s, call).failed == s.failed
  {
  }

  /** A step reports what the history says is due. */
  lemma {:induction false} RecordDue(c: Config, h: seq<Call>, n: nat, s: State)
    requires n < |h| && Agrees(c, h, n, s)
    ensures Delivers(Due(c, h, n), Room(h[n]), s, Step(c, s, h[n]))
  {
    match h[n] {
      case Exit(_, _, _, _) => GeneralExitDelivers(c, h, n, s);
      case ForkExit(_, _, _, _, _, _) => GeneralExitDelivers(c, h, n, s);
      case IoExit(_, _, _, _, _, _) => IoExitDelivers(c, h, n, s);
      case OpenExit(_, _, _, _, _) => OpenExitDelivers(c, h, n, s);
      case Start(_, _, _) => StartStopDelivers(c, h, n, s);
      case Stop(_, _, _) => StartStopDelivers(c, h, n, s);
      case _ => OtherDelivers(c, h, n, s);
    }
  }

  lemma {:induction false} OutputStep(c: Config, h: seq<Call>, n: nat, s: State, t: State)
    requires n < |h| && OutputAgrees(c, h, n, s.output) && Delivers(Due(c, h, n), Room(h[n]), s, t)
    ensures OutputAgrees(c, h, n + 1, t.output)
  {
    assert Reported(c, h, n + 1, true)
        == Reported(c, h, n, true) + if Due(c, h, n).Some? && Room(h[n]) then [n] else [];
  }

  /** The failure counter wraps around at 2^32. */
  lemma {:induction false} OneMoreFailure(failed: map<U32, U32>, n: nat)
    requires failed == if n == 0 then map[] else map[FAILED_KEY := Word(n)]
    ensures MarkFailed(failed) == map[FAILED_KEY := Word(n + 1)]
  {
    assert Word(Word(n) + 1) == Word(n + 1);
  }

  lemma {:induction false} FailedStep(c: Config, h: seq<Call>, n: nat, s: State, t: State)
    requires n < |h| && FailedAgrees(c, h, n, s.failed) && Delivers(Due(c, h, n), Room(h[n]), s, t)
    ensures FailedAgrees(c, h, n + 1, t.failed)
  {
    OneMoreFailure(s.failed, |Reported(c, h, n, false)|);
  }

  lemma {:induction false} StepAgrees(c: Config, h: seq<Call>, n: nat, s: State)
    requires n < |h| && Agrees(c, h, n, s)
    ensures Agrees(c, h, n + 1, Step(c, s, h[n]))
  {
    PidsStep(c, h, n, s);
    EntriesStep(c, h, n, s);
    FdsStep(c, h, n, s);
    NamesStep(c, h, n, s);
    FilesStep(c, h, n, s);
    MemoStep(c, h, n, s);
    RecordDue(c, h, n, s);
    OutputStep(c, h, n, s, Step(c, s, h[n]));
    FailedStep(c, h, n, s, Step(c, s, h[n]));
  }

  lemma {:induction false} RunStep(c: Config, h: seq<Call>, n: nat, s: State, t: State)
    requires n < |h| && s == Run(c, h, n) && t == Run(c, h, n + 1) && Agrees(c, h, n, s)
    ensures Agrees(c, h, n + 1, t)
  {
    StepAgrees(c, h, n, s);
    assert t == Step(c, s, h[n]);
  }

  lemma {:induction false} EmptyAgrees(c: Config, h: seq<Call>)
    ensures Agrees(c, h, 0, EMPTY)
  {
  }

  /** In every run the maps hold exactly what the history says, whatever has been forgotten. */
  lemma {:induction false} RunAgrees(c: Config, h: seq<Call>, n: nat)
    requires n <= |h|
    ensures Agrees(c, h, n, Run(c, h, n))
  {
    if n == 0 {
      EmptyAgrees(c, h);
    } else {
      RunAgrees(c, h, n - 1);
      ghost var s, t := Run(c, h, n - 1), Run(c, h, n);
      RunStep(c, h, n - 1, s, t);
    }
  }

  /** Only the newest call can change which call is the latest. */
  lemma {:induction false} LastStep(c: Config, h: seq<Call>, n: nat)
    requires n < |h|
    ensures forall q :: Last(c, h, n + 1, q) == if Answers(c, h, n, q) then Some(n) else Last(c, h, n, q)
  {
  }
}
