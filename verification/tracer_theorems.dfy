/** What a trace means: theorems about every run of the tracer. */
module TracerTheorems {
  import opened Common
  import opened PathHash
  import opened Tracer
  import opened TracerHistory

  // ---------- Identifiers ----------

  /** An identifier is a process number in the upper and a thread number in the lower half, */
  function Identifier(process: U32, thread: U32): U64 { process * 0x1_0000_0000 + thread }

  /** of which the tracer takes the latter. */
  lemma {:induction false} ThreadIsLowerHalf(process: U32, thread: U32, id: U64)
    ensures Thread(Identifier(process, thread)) == thread
    ensures id / 0x1_0000_0000 < 0x1_0000_0000 && id == Identifier(id / 0x1_0000_0000, Thread(id))
  {
  }

  // ---------- "The latest" ----------

  /** Call `i` answers the query, and no call between it and call `n` does. */
  ghost predicate Latest(c: Config, h: seq<Call>, n: nat, q: Query, i: nat)
    requires n <= |h|
  {
    i < n && Answers(c, h, i, q) && forall j | i < j < n :: !Answers(c, h, j, q)
  }

  ghost predicate Never(c: Config, h: seq<Call>, n: nat, q: Query)
    requires n <= |h|
  {
    forall j | 0 <= j < n :: !Answers(c, h, j, q)
  }

  lemma {:induction false} LastIsLatest(c: Config, h: seq<Call>, n: nat, q: Query)
    requires n <= |h|
    ensures forall i: nat :: Last(c, h, n, q) == Some(i) <==> Latest(c, h, n, q, i)
    ensures Last(c, h, n, q) == None <==> Never(c, h, n, q)
  {
    if n > 0 && !Answers(c, h, n - 1, q) {
      LastIsLatest(c, h, n - 1, q);
    }
  }

  // ---------- Accounting ----------

  /** Exits that qualify, starts and stops. */
  ghost predicate Owes(c: Config, h: seq<Call>, i: nat)
    requires i < |h|
  {
    h[i].Start? || h[i].Stop? || Qualifies(c, h, i)
  }

  ghost function Owing(c: Config, h: seq<Call>, n: nat): nat
    requires n <= |h|
  {
    if n == 0 then 0 else Owing(c, h, n - 1) + if Owes(c, h, n - 1) then 1 else 0
  }

  lemma {:induction false} ReportedOrLost(c: Config, h: seq<Call>, n: nat)
    requires n <= |h|
    ensures |Reported(c, h, n, true)| + |Reported(c, h, n, false)| == Owing(c, h, n)
  {
    if n == 0 {
    } else {
      ReportedOrLost(c, h, n - 1);
      assert Due(c, h, n - 1).Some? <==> Owes(c, h, n - 1);
    }
  }

  function FailureCount(s: State): U32 {
    if FAILED_KEY in s.failed then s.failed[FAILED_KEY] else 0
  }

  lemma {:induction false} Counted(c: Config, h: seq<Call>, n: nat, s: State)
    requires n <= |h| && OutputAgrees(c, h, n, s.output) && FailedAgrees(c, h, n, s.failed)
    ensures |s.output| == |Reported(c, h, n, true)| && FailureCount(s) == Word(|Reported(c, h, n, false)|)
  {
  }

  lemma {:induction false} RunCounted(c: Config, h: seq<Call>, n: nat)
    requires n <= |h|
    ensures |Run(c, h, n).output| == |Reported(c, h, n, true)|
    ensures FailureCount(Run(c, h, n)) == Word(|Reported(c, h, n, false)|)
  {
    RunAgrees(c, h, n);
    Counted(c, h, n, Run(c, h, n));
  }

  lemma {:induction false} WordSmall(x: nat)
    ensures Word(x) == x <==> x < 0x1_0000_0000
  {
  }

  /** Every qualifying exit, start and stop is either a record in the output or counted as a failure;
      the counter is exact until it wraps around. */
  lemma {:induction false} Accounting(c: Config, h: seq<Call>, n: nat)
    requires n <= |h|
    ensures var sent, failures, owing := |Run(c, h, n).output|, FailureCount(Run(c, h, n)), Owing(c, h, n);
            && sent <= owing && failures == Word(owing - sent)
            && (sent + failures == owing <==> owing - sent < 0x1_0000_0000)
  {
    RunCounted(c, h, n);
    ReportedOrLost(c, h, n);
    WordSmall(|Reported(c, h, n, false)|);
  }

  /** The server finds the counter under key 2. */
  lemma {:induction false} FailuresUnderKey(c: Config, h: seq<Call>, n: nat)
    requires n <= |h|
    ensures var lost := |Reported(c, h, n, false)|;
            Run(c, h, n).failed == if lost == 0 then map[] else map[2 := lost % 0x1_0000_0000]
  {
    RunAgrees(c, h, n);
  }

  // ---------- What each record says ----------

  /** A start is reported as event 1, from when its thread came to be traced, and a stop as event 2. */
  lemma {:induction false} StartStopRecords(c: Config, h: seq<Call>, i: nat)
    requires i < |h|
    ensures h[i].Start? ==>
              var t := Thread(h[i].id);
              Due(c, h, i) == Some(General(h[i].id, 1, if Tracked(c, h, i, t) then Since(c, h, i, t) else h[i].clock, 0))
    ensures h[i].Stop? ==> Due(c, h, i) == Some(General(h[i].id, 2, h[i].clock, 0))
  {
  }

  lemma {:induction false} ReportedInOrder(c: Config, h: seq<Call>, n: nat, room: bool)
    requires n <= |h|
    ensures var r := Reported(c, h, n, room);
            && (forall j, k | 0 <= j < k < |r| :: r[j] < r[k])
            && (forall i: nat :: i in r <==> i < n && Owes(c, h, i) && Room(h[i]) == room)
  {
    ReportedRight(c, h, n, room);
  }

  /** `r` lists the calls before `n` that owed a record and found room, or did not, each once and in order. */
  ghost predicate Right(c: Config, h: seq<Call>, n: nat, room: bool, r: seq<nat>)
    requires n <= |h|
  {
    && (forall j, k | 0 <= j < k < |r| :: r[j] < r[k])
    && (forall i: nat :: i in r <==> i < n && Owes(c, h, i) && Room(h[i]) == room)
  }

  lemma {:induction false} ReportedRight(c: Config, h: seq<Call>, n: nat, room: bool)
    requires n <= |h|
    ensures Right(c, h, n, room, Reported(c, h, n, room))
  {
    if n == 0 {
    } else {
      ReportedRight(c, h, n - 1, room);
      var before := Reported(c, h, n - 1, room);
      StillRight(c, h, n - 1, room, before);
      ReportedMore(c, h, n - 1, room, before);
    }
  }

  lemma {:induction false} ReportedMore(c: Config, h: seq<Call>, m: nat, room: bool, before: seq<nat>)
    requires m < |h| && before == Reported(c, h, m, room)
    ensures Reported(c, h, m + 1, room) == if Owes(c, h, m) && Room(h[m]) == room then before + [m] else before
  {
    DueIfOwing(c, h, m);
  }

  lemma {:induction false} StillRight(c: Config, h: seq<Call>, m: nat, room: bool, before: seq<nat>)
    requires m < |h| && Right(c, h, m, room, before)
    ensures Right(c, h, m + 1, room, if Owes(c, h, m) && Room(h[m]) == room then before + [m] else before)
  {
    if Owes(c, h, m) && Room(h[m]) == room {
      assert forall k | 0 <= k < |before| :: before[k] in before;
      OneReported(before, m);
    }
  }

  lemma {:induction false} OneReported(before: seq<nat>, m: nat)
    requires (forall j, k | 0 <= j < k < |before| :: before[j] < before[k]) && forall k | 0 <= k < |before| :: before[k] < m
    ensures var r := before + [m];
            && (forall j, k | 0 <= j < k < |r| :: r[j] < r[k])
            && (forall i: nat :: i in r <==> i in before || i == m)
  {
  }

  lemma {:induction false} DueIfOwing(c: Config, h: seq<Call>, i: nat)
    requires i < |h|
    ensures Due(c, h, i).Some? <==> Owes(c, h, i)
  {
  }

  /** The output is the records of the calls that got room, in the order of the calls. */
  lemma {:induction false} OutputInOrder(c: Config, h: seq<Call>, n: nat)
    requires n <= |h|
    ensures var sent, output := Reported(c, h, n, true), Run(c, h, n).output;
            |output| == |sent| && forall k | 0 <= k < |sent| :: Due(c, h, sent[k]) == Some(output[k])
  {
    RunAgrees(c, h, n);
  }

  /** No exit is timed before the entry of an earlier call. */
  ghost predicate Monotone(h: seq<Call>) {
    forall e, i | 0 <= e < i < |h| && IsEntry(h[e]) && IsExit(h[i]) :: h[e].clock <= ExitTime(h[i])
  }

  /** The record of an exit starts at the latest entry of the same call by the same thread, lasts to
      the exit and is not shorter than the threshold. */
  lemma {:induction false} ExitRecord(c: Config, h: seq<Call>, i: nat) returns (e: nat)
    requires i < |h| && IsExit(h[i]) && Due(c, h, i).Some?
    ensures Latest(c, h, i, EntryOf(KeyOf(h[i])), e)
    ensures var r := Due(c, h, i).value;
            && r.id == h[i].id && r.event == h[i].event && r.ts == h[e].clock
            && r.dur >= c.skip && (r.ts + r.dur - ExitTime(h[i])) % LIMIT == 0
            && (Monotone(h) ==> r.ts + r.dur == ExitTime(h[i]))
    ensures Traced(c, h, i) && Traced(c, h, e)
  {
    LastIsLatest(c, h, i, EntryOf(KeyOf(h[i])));
    e := Last(c, h, i, EntryOf(KeyOf(h[i]))).value;
    assert Answers(c, h, e, EntryOf(KeyOf(h[i])));
    ElapsedExact(ExitTime(h[i]), h[e].clock);
  }

  lemma {:induction false} ElapsedExact(te: U64, ts: U64)
    ensures (ts + Elapsed(te, ts) - te) % LIMIT == 0
    ensures ts <= te <==> Elapsed(te, ts) == te - ts
  {
  }

  // ---------- Where a traced thread comes from ----------

  /** `chain` is how the thread of call `i` came to be traced: a start, then forks, each made by the
      thread enrolled before and not stopped in between. */
  ghost predicate Lineage(h: seq<Call>, chain: seq<nat>, i: nat)
    requires i <= |h| && forall k | 0 <= k < |chain| :: chain[k] < i
    requires i < |h| && !h[i].Forget?
    decreases |chain|
  {
    && |chain| > 0 && h[i].id != 0
    && var last, before, t := chain[|chain| - 1], chain[..|chain| - 1], Thread(h[i].id);
       && (forall j | last < j < i :: !Leaves(h, j, t))
       && (if |before| == 0 then h[last].Start? && Thread(h[last].id) == t
           else
             && h[last].ForkExit? && Word(h[last].rc) == t != 0
             && (forall k | 0 <= k < |before| :: before[k] < last)
             && Lineage(h, before, last))
  }

  /** A call is traced only if its thread descends from one that was started. */
  lemma {:induction false} TracedHasLineage(c: Config, h: seq<Call>, i: nat) returns (chain: seq<nat>)
    requires i < |h| && !c.traceAll && Traced(c, h, i)
    ensures forall k | 0 <= k < |chain| :: chain[k] < i
    ensures Lineage(h, chain, i)
  {
    var t := Thread(h[i].id);
    LastIsLatest(c, h, i, Membership(t));
    var last := Last(c, h, i, Membership(t)).value;
    forall j | last < j < i ensures !Leaves(h, j, t) {
      assert !Answers(c, h, j, Membership(t));
    }
    if h[last].Start? {
      chain := [last];
      assert chain[..0] == [];
    } else {
      var before := TracedHasLineage(c, h, last);
      chain := before + [last];
      assert chain[..|before|] == before;
    }
  }

  /** And any such descent suffices. */
  lemma {:induction false} LineageIsTraced(c: Config, h: seq<Call>, chain: seq<nat>, i: nat)
    requires i < |h| && !h[i].Forget? && forall k | 0 <= k < |chain| :: chain[k] < i
    requires Lineage(h, chain, i)
    decreases |chain|
    ensures Traced(c, h, i)
  {
    var last, before, t := chain[|chain| - 1], chain[..|chain| - 1], Thread(h[i].id);
    if |before| == 0 {
    } else {
      LineageIsTraced(c, h, before, last);
    }
    StaysTracked(c, h, last, i, t);
  }

  /** An enrolled thread stays traced until it stops. */
  lemma {:induction false} StaysTracked(c: Config, h: seq<Call>, e: nat, n: nat, t: U32)
    requires e < n <= |h| && Enrols(c, h, e, t) && forall j | e < j < n :: !Leaves(h, j, t)
    ensures Tracked(c, h, n, t)
  {
    if e + 1 < n {
      StaysTracked(c, h, e, n - 1, t);
    }
    MembershipStep(c, h, n - 1, t);
  }

  // ---------- Files ----------

  /** The hash in the record of a read, write or metadata call is that of the path named by the latest
      recorded entry `o` of the latest recorded open `x`, by the same thread, that returned the
      descriptor given to the latest recorded entry `f` of the call. */
  lemma {:induction false} AttributedPath(c: Config, h: seq<Call>, i: nat, f: nat, x: nat, o: nat)
    requires i < |h| && h[i].IoExit? && Due(c, h, i).Some?
    requires Latest(c, h, i, FdOf(KeyOf(h[i])), f)
    requires Latest(c, h, i, OpenOf(File(h[i].id, h[f].fd)), x)
    requires Latest(c, h, x, PathOf(KeyOf(h[x])), o)
    ensures Due(c, h, i).value.fhash == Hash(h[o].path)
    ensures h[o].id == h[x].id == h[f].id == h[i].id
    ensures 0 < h[f].fd < 0x8000_0000 && h[x].rc % 0x1_0000_0000 == h[f].fd
  {
    LastIsLatest(c, h, i, FdOf(KeyOf(h[i])));
    LastIsLatest(c, h, i, OpenOf(File(h[i].id, h[f].fd)));
    LastIsLatest(c, h, x, PathOf(KeyOf(h[x])));
  }

  /** Without such calls there is no hash; a recorded open always has a recorded entry. */
  lemma {:induction false} AttributedNothing(c: Config, h: seq<Call>, i: nat)
    requires i < |h| && h[i].IoExit? && Due(c, h, i).Some?
    requires || Never(c, h, i, FdOf(KeyOf(h[i])))
             || exists f: nat :: Latest(c, h, i, FdOf(KeyOf(h[i])), f) && Never(c, h, i, OpenOf(File(h[i].id, h[f].fd)))
    ensures Due(c, h, i).value.fhash == 0
  {
    LastIsLatest(c, h, i, FdOf(KeyOf(h[i])));
    match Last(c, h, i, FdOf(KeyOf(h[i])))
    case None =>
    case Some(f) => LastIsLatest(c, h, i, OpenOf(File(h[i].id, h[f].fd)));
  }

  lemma {:induction false} RecordedOpenHasEntry(c: Config, h: seq<Call>, file: File, x: nat) returns (o: nat)
    requires x < |h| && Answers(c, h, x, OpenOf(file))
    ensures Latest(c, h, x, PathOf(KeyOf(h[x])), o)
  {
    LastIsLatest(c, h, x, PathOf(KeyOf(h[x])));
    o := Last(c, h, x, PathOf(KeyOf(h[x]))).value;
  }

  /** An open exit that qualifies and gets room, with a recorded entry, is recorded for exactly the
      descriptor it returned: a small positive value is that descriptor, */
  lemma {:induction false} DescriptorRecorded(c: Config, h: seq<Call>, x: nat, fd: int)
    requires x < |h| && h[x].OpenExit? && h[x].rc < 0x8000_0000
    requires h[x].room && Qualifies(c, h, x) && Last(c, h, x, PathOf(KeyOf(h[x]))).Some?
    ensures Answers(c, h, x, OpenOf(File(h[x].id, fd))) <==> fd == h[x].rc > 0
  {
  }

  /** and an error, which is a small negative one, is none. */
  lemma {:induction false} FailedOpenUnrecorded(c: Config, s: State, h: seq<Call>, x: nat, e: nat, file: File)
    requires x < |h| && h[x].OpenExit? && h[x].rc == LIMIT - e && 0 < e < 4096
    ensures !Answers(c, h, x, OpenOf(file)) && Step(c, s, h[x]).files == s.files
  {
    ReturnedExact(h[x].rc, file.fd);
  }

  /** A C int has 32 bits, and is the return value modulo 2^32. */
  lemma {:induction false} AsIntExact(rc: U64)
    ensures -0x8000_0000 <= AsInt(rc) < 0x8000_0000 && (AsInt(rc) - rc) % 0x1_0000_0000 == 0
  {
  }

  lemma {:induction false} ExitIgnoresMemo(c: Config, s: State, memo: Memo, key: Tracer.Key, te: U64, room: bool)
    ensures GenericExit(c, s.(memo := memo), key, te, room) == GenericExit(c, s, key, te, room).(memo := memo)
  {
  }

  lemma {:induction false} SysioExitIgnoresMemo(c: Config, s: State, memo: Memo, key: Tracer.Key, te: U64, rc: U64, data: bool, room: bool)
    ensures SysioExit(c, s.(memo := memo), key, te, rc, data, room) == SysioExit(c, s, key, te, rc, data, room).(memo := memo)
  {
  }

  lemma {:induction false} OpenExitIgnoresMemo(c: Config, s: State, memo: Memo, key: Tracer.Key, te: U64, rc: U64, room: bool)
    ensures SysioOpenExit(c, s.(memo := memo), key, te, rc, room) == SysioOpenExit(c, s, key, te, rc, room).(memo := memo)
  {
  }

  lemma {:induction false} ForkExitIgnoresMemo(c: Config, s: State, memo: Memo, call: Call)
    requires call.ForkExit?
    ensures Step(c, s.(memo := memo), call) == Step(c, s, call).(memo := memo)
  {
    var t := ForkedChild(c, s, call.id, call.clock, call.rc);
    assert ForkedChild(c, s.(memo := memo), call.id, call.clock, call.rc) == t.(memo := memo);
    ExitIgnoresMemo(c, t, memo, Key(call.id, call.event), call.exitClock, call.room);
  }

  lemma {:induction false} StartIgnoresMemo(s: State, memo: Memo, id: U64, clock: U64, room: bool)
    ensures DoStart(s.(memo := memo), id, clock, room) == DoStart(s, id, clock, room).(memo := memo)
  {
  }

  lemma {:induction false} StopIgnoresMemo(s: State, memo: Memo, id: U64, clock: U64, room: bool)
    ensures DoStop(s.(memo := memo), id, clock, room) == DoStop(s, id, clock, room).(memo := memo)
  {
  }

  lemma {:induction false} EntriesIgnoreMemo(c: Config, s: State, memo: Memo, call: Call)
    requires call.Entry? || call.FdEntry?
    ensures Step(c, s.(memo := memo), call) == Step(c, s, call).(memo := memo)
  {
  }

  /** Of all handlers only the open entry looks at the memo, */
  lemma {:induction false} OthersIgnoreMemo(c: Config, s: State, memo: Memo, call: Call)
    requires !call.OpenEntry? && !call.Forget?
    ensures Step(c, s.(memo := memo), call) == Step(c, s, call).(memo := memo)
  {
    match call {
      case Exit(id, event, clock, room) => ExitIgnoresMemo(c, s, memo, Key(id, event), clock, room);
      case ForkExit(_, _, _, _, _, _) => ForkExitIgnoresMemo(c, s, memo, call);
      case IoExit(id, event, clock, rc, data, room) => SysioExitIgnoresMemo(c, s, memo, Key(id, event), clock, rc, data, room);
      case OpenExit(id, event, clock, rc, room) => OpenExitIgnoresMemo(c, s, memo, Key(id, event), clock, rc, room);
      case Start(id, clock, room) => StartIgnoresMemo(s, memo, id, clock, room);
      case Stop(id, clock, room) => StopIgnoresMemo(s, memo, id, clock, room);
      case _ => EntriesIgnoreMemo(c, s, memo, call);
    }
  }

  /** and what it finds there makes no difference to the other maps, as long as it is true. */
  lemma {:induction false} OpenIgnoresMemo(c: Config, s: State, memo: Memo, call: Call)
    requires call.OpenEntry? && Remembers(s.memo) && Remembers(memo)
    ensures Step(c, s.(memo := memo), call) == Step(c, s, call).(memo := Step(c, s.(memo := memo), call).memo)
    ensures Remembers(Step(c, s.(memo := memo), call).memo)
  {
    NameWritten(c, s, call);
    NameWritten(c, s.(memo := memo), call);
  }

  /** The exit of an open is taken for the entry `e` just before it exactly when that entry was
      recorded: made by a traced thread, for a path that is included. */
  lemma {:induction false} OpenUsesItsOwnPath(c: Config, h: seq<Call>, x: nat, e: nat)
    requires e < x < |h| && h[x].OpenExit? && h[e].OpenEntry? && KeyOf(h[e]) == KeyOf(h[x])
    requires forall j | e < j < x && h[j].OpenEntry? :: KeyOf(h[j]) != KeyOf(h[x])
    ensures Last(c, h, x, PathOf(KeyOf(h[x]))) == Some(e) <==> h[e].included && Traced(c, h, e)
  {
    LastIsLatest(c, h, x, PathOf(KeyOf(h[x])));
    if h[e].included && Traced(c, h, e) {
      assert Latest(c, h, x, PathOf(KeyOf(h[x])), e);
    }
  }

  /** Otherwise it is taken for an earlier one: here descriptor 7 is opened on `q`, which is not
      included, and read; the read is reported for `p`. */
  lemma {:induction false} ExcludedOpenTakesStalePath(p: Path, q: Path)
    ensures Run(Config(0, true), StaleCalls(p, q), 6).output ==
              [Io(1, 9, 10, 10, Hash(p), 0), Io(1, 9, 10, 30, Hash(p), 0), Io(1, 8, 50, 10, Hash(p), 100)]
  {
    var c, h := Config(0, true), StaleCalls(p, q);
    StaleOpens(p, q);
    var s := Run(c, h, 4);
    var t := Run(c, h, 5);
    assert t == Step(c, s, h[4]) && Run(c, h, 6) == Step(c, t, h[5]);
  }

  function StaleCalls(p: Path, q: Path): seq<Call> {
    [OpenEntry(1, 9, 10, p, true), OpenExit(1, 9, 20, 6, true),
     OpenEntry(1, 9, 30, q, false), OpenExit(1, 9, 40, 7, true),
     FdEntry(1, 8, 50, 7), IoExit(1, 8, 60, 100, true, true)]
  }

  lemma {:induction false} StaleOpens(p: Path, q: Path)
    ensures var s := Run(Config(0, true), StaleCalls(p, q), 4);
            && s.files == map[File(1, 6) := Hash(p), File(1, 7) := Hash(p)] && s.fds == map[]
            && s.output == [Io(1, 9, 10, 10, Hash(p), 0), Io(1, 9, 10, 30, Hash(p), 0)]
  {
    var c, h := Config(0, true), StaleCalls(p, q);
    assert Run(c, h, 0) == EMPTY;
    var s1, s2, s3 := Run(c, h, 1), Run(c, h, 2), Run(c, h, 3);
    assert s1 == Step(c, EMPTY, h[0]);
    assert s1.names == map[Key(1, 9) := Hash(p)] && s1.entries == map[Key(1, 9) := 10];
    assert s2 == Step(c, s1, h[1]) && s3 == Step(c, s2, h[2]) == s2;
    assert Run(c, h, 4) == Step(c, s3, h[3]);
  }
}
