/** Profile mode: the kernel counts calls per thread, event and time interval
    (src/datacrumbs/server/bpf/common.h), and the server drains the counters
    (src/datacrumbs/server/process/processing/general_event.h). */
module Profile {
  import opened Common
  import opened PathHash
  import opened Tracer
  import opened TracerHistory

  type Period = x: nat | 0 < x witness 1

  /** What the build fixes: tracing as in trace mode, and the length of an interval. */
  datatype Setup = Setup(config: Config, period: Period)

  datatype CounterKey = CounterKey(id: U64, event: U64, interval: nat)
  datatype Counter = Counter(frequency: U64, duration: U64)
  type Counters = map<CounterKey, Counter>

  /** A counter given to the event processor. */
  datatype Handed = Handed(key: CounterKey, value: Counter)

  datatype ProfileState = ProfileState(
    pids: map<U32, U64>,
    entries: map<Tracer.Key, U64>,
    counters: Counters,
    latest: Option<nat>,
    handed: seq<Handed>)

  const FRESH := ProfileState(map[], map[], map[], None, [])

  /** A probe call, or one call of the drain: `batch` is what the lookup returned, `upTo` the latest
      interval it was called with (0: no limit). */
  datatype Move = Probe(call: Call) | Drain(upTo: nat, batch: seq<CounterKey>)

  function Word64(x: int): U64 { x % LIMIT }

  function Bumped(counters: Counters, key: CounterKey, duration: U64): Counters {
    counters[key := Counter(Word64(LiveCount(counters, key) + 1), Word64(LiveTime(counters, key) + duration))]
  }

  predicate Traces(u: Setup, s: ProfileState, id: U64) {
    u.config.traceAll || (Thread(id) in s.pids && id != 0)
  }

  /** Profile mode has no threshold. */
  function CountExit(u: Setup, s: ProfileState, key: Tracer.Key, te: U64): (t: ProfileState)
    ensures t == s.(counters := t.counters, latest := t.latest)
  {
    if !Traces(u, s, key.id) || key !in s.entries then s
    else
      var interval := s.entries[key] / u.period;
      s.(counters := Bumped(s.counters, CounterKey(key.id, key.event, interval), Elapsed(te, s.entries[key])),
         latest := Some(interval))
  }

  function NextPids(u: Setup, s: ProfileState, call: Call): map<U32, U64> {
    match call
    case Start(id, clock, _) => s.pids[Thread(id) := if Thread(id) in s.pids then s.pids[Thread(id)] else clock]
    case Stop(id, _, _) => s.pids - {Thread(id)}
    case ForkExit(id, _, clock, rc, _, _) =>
      if Traces(u, s, id) && Word(rc) != 0 then s.pids[Word(rc) := clock] else s.pids
    case _ => s.pids
  }

  function NextEntries(u: Setup, s: ProfileState, call: Call): map<Tracer.Key, U64> {
    if IsEntry(call) && Traces(u, s, call.id) then s.entries[KeyOf(call) := call.clock] else s.entries
  }

  function OnCall(u: Setup, s: ProfileState, call: Call): ProfileState {
    var t := s.(pids := NextPids(u, s, call), entries := NextEntries(u, s, call));
    match call
    case Exit(id, event, clock, _) => CountExit(u, t, Key(id, event), clock)
    case ForkExit(id, event, _, _, exitClock, _) => CountExit(u, t, Key(id, event), exitClock)
    case Start(_, _, _) => t.(latest := Some(t.pids[Thread(call.id)] / u.period))
    case _ => t
  }

  // ---------- Draining ----------

  predicate Ripe(key: CounterKey, upTo: nat) { upTo == 0 || key.interval <= upTo }

  /** The keys of the batch that are handed over and deleted. */
  function RipeOf(batch: seq<CounterKey>, upTo: nat): (r: seq<CounterKey>)
    ensures forall k :: k in r <==> k in batch && Ripe(k, upTo)
    ensures |r| <= |batch|
  {
    if |batch| == 0 then []
    else
      var before, last := RipeOf(batch[..|batch| - 1], upTo), batch[|batch| - 1];
      if Ripe(last, upTo) then before + [last] else before
  }

  predicate Distinct(keys: seq<CounterKey>) {
    forall i, j | 0 <= i < j < |keys| :: keys[i] != keys[j]
  }

  predicate Holds(counters: Counters, keys: seq<CounterKey>) {
    forall k | k in keys :: k in counters
  }

  function Hand(counters: Counters, keys: seq<CounterKey>): seq<Handed>
    requires Holds(counters, keys)
  {
    seq(|keys|, i requires 0 <= i < |keys| => Handed(keys[i], counters[keys[i]]))
  }

  function OnDrain(s: ProfileState, upTo: nat, batch: seq<CounterKey>): ProfileState
    requires Holds(s.counters, batch)
  {
    var due := RipeOf(batch, upTo);
    s.(handed := s.handed + Hand(s.counters, due), counters := s.counters - (set k | k in due))
  }

  /** A lookup returns keys of the map, each once. */
  predicate Legal(s: ProfileState, m: Move) {
    m.Drain? ==> Distinct(m.batch) && Holds(s.counters, m.batch)
  }

  function Next(u: Setup, s: ProfileState, m: Move): ProfileState
    requires Legal(s, m)
  {
    match m
    case Probe(call) => OnCall(u, s, call)
    case Drain(upTo, batch) => OnDrain(s, upTo, batch)
  }

  /** The states of a run, one more than it has moves. */
  ghost predicate IsRun(u: Setup, moves: seq<Move>, states: seq<ProfileState>) {
    && |states| == |moves| + 1 && states[0] == FRESH
    && forall n | 0 <= n < |moves| :: StepsAt(u, moves, states, n)
  }

  ghost predicate StepsAt(u: Setup, moves: seq<Move>, states: seq<ProfileState>, n: nat)
    requires n < |moves| && |states| == |moves| + 1
  {
    Steps(u, states[n], moves[n], states[n + 1])
  }

  ghost predicate Steps(u: Setup, s: ProfileState, m: Move, t: ProfileState) {
    Legal(s, m) && t == Next(u, s, m)
  }

  // ---------- What has been logged ----------

  /** The probe calls among the first `n` moves. */
  function Calls(moves: seq<Move>, n: nat): (r: seq<Call>)
    requires n <= |moves|
    ensures |r| <= n
  {
    if n == 0 then []
    else if moves[n - 1].Probe? then Calls(moves, n - 1) + [moves[n - 1].call]
    else Calls(moves, n - 1)
  }

  lemma {:induction false} CallsGrow(moves: seq<Move>, n: nat, m: nat)
    requires n <= m <= |moves|
    ensures Calls(moves, n) <= Calls(moves, m)
    ensures n < m && moves[n].Probe? ==>
              |Calls(moves, n)| < |Calls(moves, m)| && Calls(moves, m)[|Calls(moves, n)|] == moves[n].call
  {
    if n < m {
      CallsGrow(moves, n, m - 1);
    }
  }

  /** Exit `i` is counted: its thread is traced and its entry was recorded. */
  ghost predicate Counts(c: Config, h: seq<Call>, i: nat)
    requires i < |h|
  {
    (h[i].Exit? || h[i].ForkExit?) && Traced(c, h, i) && Last(c, h, i, EntryOf(KeyOf(h[i]))).Some?
  }

  ghost function EntryClock(c: Config, h: seq<Call>, i: nat): U64
    requires i < |h| && Counts(c, h, i)
  {
    h[Last(c, h, i, EntryOf(KeyOf(h[i]))).value].clock
  }

  /** The exit belongs to the counter of its thread, its event and the interval of its entry. */
  ghost function CountedAt(u: Setup, h: seq<Call>, i: nat): CounterKey
    requires i < |h| && Counts(u.config, h, i)
  {
    CounterKey(h[i].id, h[i].event, EntryClock(u.config, h, i) / u.period)
  }

  ghost function CountOf(u: Setup, h: seq<Call>, n: nat, k: CounterKey): nat
    requires n <= |h|
  {
    if n == 0 then 0
    else CountOf(u, h, n - 1, k) + if Counts(u.config, h, n - 1) && CountedAt(u, h, n - 1) == k then 1 else 0
  }

  ghost function TimeOf(u: Setup, h: seq<Call>, n: nat, k: CounterKey): nat
    requires n <= |h|
  {
    if n == 0 then 0
    else TimeOf(u, h, n - 1, k)
         + if Counts(u.config, h, n - 1) && CountedAt(u, h, n - 1) == k
           then Elapsed(ExitTime(h[n - 1]), EntryClock(u.config, h, n - 1)) else 0
  }

  function HandedCount(handed: seq<Handed>, k: CounterKey): nat {
    if |handed| == 0 then 0
    else
      var last := handed[|handed| - 1];
      HandedCount(handed[..|handed| - 1], k) + if last.key == k then last.value.frequency else 0
  }

  function HandedTime(handed: seq<Handed>, k: CounterKey): nat {
    if |handed| == 0 then 0
    else
      var last := handed[|handed| - 1];
      HandedTime(handed[..|handed| - 1], k) + if last.key == k then last.value.duration else 0
  }

  function LiveCount(counters: Counters, k: CounterKey): nat {
    if k in counters then counters[k].frequency else 0
  }

  function LiveTime(counters: Counters, k: CounterKey): nat {
    if k in counters then counters[k].duration else 0
  }

  /** `part` is what 64-bit counters show of `whole`: the same, unless it has wrapped around. */
  predicate Shows(part: nat, whole: nat) {
    part <= whole && (whole - part) % LIMIT == 0
  }

  ghost predicate CountConserved(u: Setup, h: seq<Call>, n: nat, s: ProfileState, k: CounterKey)
    requires n <= |h|
  {
    Shows(HandedCount(s.handed, k) + LiveCount(s.counters, k), CountOf(u, h, n, k))
  }

  ghost predicate TimeConserved(u: Setup, h: seq<Call>, n: nat, s: ProfileState, k: CounterKey)
    requires n <= |h|
  {
    Shows(HandedTime(s.handed, k) + LiveTime(s.counters, k), TimeOf(u, h, n, k))
  }

  ghost predicate Conserves(u: Setup, h: seq<Call>, n: nat, s: ProfileState, k: CounterKey)
    requires n <= |h|
  {
    CountConserved(u, h, n, s, k) && TimeConserved(u, h, n, s, k)
  }

  /** Call `i` sets the latest interval: a start, or an exit that is counted. */
  ghost predicate Marks(c: Config, h: seq<Call>, i: nat)
    requires i < |h|
  {
    h[i].Start? || Counts(c, h, i)
  }

  /** The time whose interval it sets: when its thread came to be traced, or when the exit's entry was. */
  ghost function MarkedTime(c: Config, h: seq<Call>, i: nat): U64
    requires i < |h| && Marks(c, h, i)
  {
    if Counts(c, h, i) then EntryClock(c, h, i)
    else if Tracked(c, h, i, Thread(h[i].id)) then Since(c, h, i, Thread(h[i].id))
    else h[i].clock
  }

  /** The latest interval is that of the latest call that sets it, if there is one. */
  ghost predicate LatestAgrees(u: Setup, h: seq<Call>, n: nat, latest: Option<nat>)
    requires n <= |h|
  {
    match latest
    case None => forall i | 0 <= i < n :: !Marks(u.config, h, i)
    case Some(interval) => exists i: nat | i < n :: LastMark(u, h, n, i, interval)
  }

  ghost predicate LastMark(u: Setup, h: seq<Call>, n: nat, i: nat, interval: nat)
    requires i < n <= |h|
  {
    && Marks(u.config, h, i) && interval == MarkedTime(u.config, h, i) / u.period
    && forall j | i < j < n :: !Marks(u.config, h, j)
  }

  ghost predicate Agrees(u: Setup, h: seq<Call>, n: nat, s: ProfileState)
    requires n <= |h|
  {
    && PidsAgree(u.config, h, n, s.pids) && EntriesAgree(u.config, h, n, s.entries)
    && LatestAgrees(u, h, n, s.latest)
    && forall k :: Conserves(u, h, n, s, k)
  }

  // ---------- Every move keeps the counts ----------

  lemma {:induction false} MapsStep(u: Setup, h: seq<Call>, n: nat, s: ProfileState)
    requires n < |h| && PidsAgree(u.config, h, n, s.pids) && EntriesAgree(u.config, h, n, s.entries)
    ensures PidsAgree(u.config, h, n + 1, NextPids(u, s, h[n]))
    ensures EntriesAgree(u.config, h, n + 1, NextEntries(u, s, h[n]))
  {
    var t := EMPTY.(pids := s.pids, entries := s.entries);
    PidsWritten(u.config, t, h[n]);
    EntryWritten(u.config, t, h[n]);
    PidsStep(u.config, h, n, t);
    EntriesStep(u.config, h, n, t);
  }

  /** The step counts an exit exactly when the history says it does, at the right key. */
  lemma {:induction false} CounterWritten(u: Setup, h: seq<Call>, n: nat, s: ProfileState)
    requires n < |h| && PidsAgree(u.config, h, n, s.pids) && EntriesAgree(u.config, h, n, s.entries)
    ensures OnCall(u, s, h[n]).handed == s.handed
    ensures OnCall(u, s, h[n]).counters
         == if !Counts(u.config, h, n) then s.counters
            else Bumped(s.counters, CountedAt(u, h, n), Elapsed(ExitTime(h[n]), EntryClock(u.config, h, n)))
  {
    var t := EMPTY.(pids := s.pids, entries := s.entries);
    if !h[n].Forget? {
      TracingAgrees(u.config, h, n, t);
    }
  }

  lemma {:induction false} LatestWritten(u: Setup, h: seq<Call>, n: nat, s: ProfileState)
    requires n < |h| && PidsAgree(u.config, h, n, s.pids) && EntriesAgree(u.config, h, n, s.entries)
    ensures OnCall(u, s, h[n]).latest
         == if Marks(u.config, h, n) then Some(MarkedTime(u.config, h, n) / u.period) else s.latest
  {
    var t := EMPTY.(pids := s.pids, entries := s.entries);
    if !h[n].Forget? {
      TracingAgrees(u.config, h, n, t);
    }
  }

  lemma {:induction false} LatestStep(u: Setup, h: seq<Call>, n: nat, latest: Option<nat>)
    requires n < |h| && LatestAgrees(u, h, n, latest)
    ensures LatestAgrees(u, h, n + 1, if Marks(u.config, h, n) then Some(MarkedTime(u.config, h, n) / u.period) else latest)
  {
    if Marks(u.config, h, n) {
      assert LastMark(u, h, n + 1, n, MarkedTime(u.config, h, n) / u.period);
    } else if latest.Some? {
      var i: nat :| i < n && LastMark(u, h, n, i, latest.value);
      assert LastMark(u, h, n + 1, i, latest.value);
    }
  }

  lemma {:induction false} WordShows(live: U64, handed: nat, whole: nat, more: nat)
    requires Shows(handed + live, whole)
    ensures Shows(handed + Word64(live + more), whole + more)
  {
    var rest := live + more - Word64(live + more);
    assert rest % LIMIT == 0 && rest >= 0;
  }

  lemma {:induction false} WordOf(x: U64)
    ensures Word64(x + 0) == x
  {
  }

  lemma {:induction false} BumpedShows(counters: Counters, key: CounterKey, time: U64, k: CounterKey)
    ensures var after := Bumped(counters, key, time);
            && LiveCount(after, k) == Word64(LiveCount(counters, k) + if key == k then 1 else 0)
            && LiveTime(after, k) == Word64(LiveTime(counters, k) + if key == k then time else 0)
  {
    WordOf(LiveCount(counters, k));
    WordOf(LiveTime(counters, k));
  }

  /** The step counts exit `n` if the history does. */
  ghost predicate Bumps(u: Setup, h: seq<Call>, n: nat, s: ProfileState, t: ProfileState)
    requires n < |h|
  {
    && t.handed == s.handed
    && t.counters == if !Counts(u.config, h, n) then s.counters
                     else Bumped(s.counters, CountedAt(u, h, n), Elapsed(ExitTime(h[n]), EntryClock(u.config, h, n)))
  }

  lemma {:induction false} BumpCount(u: Setup, h: seq<Call>, n: nat, s: ProfileState, t: ProfileState, k: CounterKey)
    requires n < |h| && CountConserved(u, h, n, s, k) && Bumps(u, h, n, s, t)
    ensures CountConserved(u, h, n + 1, t, k)
  {
    if Counts(u.config, h, n) {
      var key, time := CountedAt(u, h, n), Elapsed(ExitTime(h[n]), EntryClock(u.config, h, n));
      BumpedShows(s.counters, key, time, k);
      WordShows(LiveCount(s.counters, k), HandedCount(s.handed, k), CountOf(u, h, n, k), if key == k then 1 else 0);
    }
  }

  lemma {:induction false} BumpTime(u: Setup, h: seq<Call>, n: nat, s: ProfileState, t: ProfileState, k: CounterKey)
    requires n < |h| && TimeConserved(u, h, n, s, k) && Bumps(u, h, n, s, t)
    ensures TimeConserved(u, h, n + 1, t, k)
  {
    if Counts(u.config, h, n) {
      var key, time := CountedAt(u, h, n), Elapsed(ExitTime(h[n]), EntryClock(u.config, h, n));
      BumpedShows(s.counters, key, time, k);
      WordShows(LiveTime(s.counters, k), HandedTime(s.handed, k), TimeOf(u, h, n, k), if key == k then time else 0);
    }
  }

  lemma {:induction false} CallStep(u: Setup, h: seq<Call>, n: nat, s: ProfileState, t: ProfileState)
    requires n < |h| && Agrees(u, h, n, s) && t == OnCall(u, s, h[n])
    ensures Agrees(u, h, n + 1, t)
  {
    MapsStep(u, h, n, s);
    CounterWritten(u, h, n, s);
    LatestWritten(u, h, n, s);
    LatestStep(u, h, n, s.latest);
    var m := n + 1;
    forall k ensures Conserves(u, h, m, t, k) {
      assert Conserves(u, h, n, s, k);
      BumpCount(u, h, n, s, t, k);
      BumpTime(u, h, n, s, t, k);
    }
  }

  lemma {:induction false} RipeDistinct(batch: seq<CounterKey>, upTo: nat)
    requires Distinct(batch)
    ensures Distinct(RipeOf(batch, upTo))
  {
    if |batch| == 0 {
    } else {
      RipeDistinct(batch[..|batch| - 1], upTo);
    }
  }

  lemma {:induction false} OneMoreHanded(handed: seq<Handed>, x: Handed, k: CounterKey)
    ensures HandedCount(handed + [x], k) == HandedCount(handed, k) + if x.key == k then x.value.frequency else 0
    ensures HandedTime(handed + [x], k) == HandedTime(handed, k) + if x.key == k then x.value.duration else 0
  {
    assert (handed + [x])[..|handed|] == handed;
  }

  lemma {:induction false} HandSnoc(counters: Counters, keys: seq<CounterKey>, last: CounterKey)
    requires Holds(counters, keys + [last]) && Holds(counters, keys) && last in counters
    ensures Hand(counters, keys + [last]) == Hand(counters, keys) + [Handed(last, counters[last])]
  {
  }

  /** Handing over keys moves their counts, once each. */
  lemma {:induction false} HandCounts(handed: seq<Handed>, counters: Counters, keys: seq<CounterKey>, k: CounterKey)
    requires Distinct(keys) && Holds(counters, keys)
    ensures HandedCount(handed + Hand(counters, keys), k)
         == HandedCount(handed, k) + if k in keys then LiveCount(counters, k) else 0
    ensures HandedTime(handed + Hand(counters, keys), k)
         == HandedTime(handed, k) + if k in keys then LiveTime(counters, k) else 0
  {
    if |keys| == 0 {
      assert handed + Hand(counters, keys) == handed;
    } else {
      var init, last := keys[..|keys| - 1], keys[|keys| - 1];
      HandCounts(handed, counters, init, k);
      var x := Handed(last, counters[last]);
      assert keys == init + [last];
      HandSnoc(counters, init, last);
      OneMoreHanded(handed + Hand(counters, init), x, k);
      Associative(handed, Hand(counters, init), [x]);
      assert k in keys <==> k in init || k == last;
    }
  }

  lemma {:induction false} DrainStep(u: Setup, h: seq<Call>, n: nat, s: ProfileState, upTo: nat, batch: seq<CounterKey>)
    requires n <= |h| && Agrees(u, h, n, s) && Distinct(batch) && Holds(s.counters, batch)
    ensures Agrees(u, h, n, OnDrain(s, upTo, batch))
  {
    var t := OnDrain(s, upTo, batch);
    forall k ensures Conserves(u, h, n, t, k) {
      DrainConserves(s, upTo, batch, k);
      assert Conserves(u, h, n, s, k);
    }
  }

  /** A drain takes from its batch exactly the counters up to its limit, all if that is 0, and leaves
      every other counter as it is. */
  lemma {:induction false} DrainTakes(s: ProfileState, upTo: nat, batch: seq<CounterKey>, k: CounterKey)
    requires Holds(s.counters, batch)
    ensures var t := OnDrain(s, upTo, batch);
            && (k in t.counters <==> k in s.counters && !(k in batch && (upTo == 0 || k.interval <= upTo)))
            && (k in t.counters ==> t.counters[k] == s.counters[k])
  {
  }

  /** A drain that takes a counter moves all of it to what has been handed over. */
  lemma {:induction false} DrainMoves(s: ProfileState, upTo: nat, batch: seq<CounterKey>, k: CounterKey)
    requires Distinct(batch) && Holds(s.counters, batch)
    ensures var t, taken := OnDrain(s, upTo, batch), k in batch && Ripe(k, upTo);
            && HandedCount(t.handed, k) == HandedCount(s.handed, k) + (if taken then LiveCount(s.counters, k) else 0)
            && HandedTime(t.handed, k) == HandedTime(s.handed, k) + (if taken then LiveTime(s.counters, k) else 0)
            && LiveCount(t.counters, k) == (if taken then 0 else LiveCount(s.counters, k))
            && LiveTime(t.counters, k) == (if taken then 0 else LiveTime(s.counters, k))
  {
    RipeDistinct(batch, upTo);
    HandCounts(s.handed, s.counters, RipeOf(batch, upTo), k);
  }

  lemma {:induction false} DrainConserves(s: ProfileState, upTo: nat, batch: seq<CounterKey>, k: CounterKey)
    requires Distinct(batch) && Holds(s.counters, batch)
    ensures var t := OnDrain(s, upTo, batch);
            && HandedCount(t.handed, k) + LiveCount(t.counters, k) == HandedCount(s.handed, k) + LiveCount(s.counters, k)
            && HandedTime(t.handed, k) + LiveTime(t.counters, k) == HandedTime(s.handed, k) + LiveTime(s.counters, k)
  {
    DrainMoves(s, upTo, batch, k);
  }

  // ---------- Conservation ----------

  lemma {:induction false} MoveStep(u: Setup, h: seq<Call>, p: nat, s: ProfileState, m: Move, q: nat, t: ProfileState)
    requires p <= q <= |h| && Agrees(u, h, p, s) && Steps(u, s, m, t)
    requires if m.Probe? then q == p + 1 && m.call == h[p] else q == p
    ensures Agrees(u, h, q, t)
  {
    match m
    case Probe(call) => CallStep(u, h, p, s, t);
    case Drain(upTo, batch) => DrainStep(u, h, p, s, upTo, batch);
  }

  /** How many probe calls are among the first `n` moves. */
  function Made(moves: seq<Move>, n: nat): (p: nat)
    requires n <= |moves|
    ensures p <= n
  {
    |Calls(moves, n)|
  }

  lemma {:induction false} MadeStep(moves: seq<Move>, n: nat)
    requires n < |moves|
    ensures var h, p, q := Calls(moves, |moves|), Made(moves, n), Made(moves, n + 1);
            && p <= q <= |h|
            && (if moves[n].Probe? then q == p + 1 && moves[n].call == h[p] else q == p)
  {
    CallsGrow(moves, n + 1, |moves|);
    CallsGrow(moves, n, |moves|);
  }

  lemma {:induction false} RunAgrees(u: Setup, moves: seq<Move>, states: seq<ProfileState>, n: nat)
    requires IsRun(u, moves, states) && n <= |moves|
    ensures Made(moves, n) <= |Calls(moves, |moves|)|
    ensures Agrees(u, Calls(moves, |moves|), Made(moves, n), states[n])
  {
    if n > 0 {
      RunAgrees(u, moves, states, n - 1);
      MadeStep(moves, n - 1);
      assert StepsAt(u, moves, states, n - 1);
      var h, p, q := Calls(moves, |moves|), Made(moves, n - 1), Made(moves, n);
      MoveStep(u, h, p, states[n - 1], moves[n - 1], q, states[n]);
    } else {
      FreshAgrees(u, Calls(moves, |moves|));
    }
  }

  lemma {:induction false} FreshAgrees(u: Setup, h: seq<Call>)
    ensures Agrees(u, h, 0, FRESH)
  {
  }

  /** In every run, for every thread, event and interval: what was handed over and what is still in the
      map are together the number and the time of the exits counted there, in 64-bit arithmetic. */
  lemma {:induction false} Conservation(u: Setup, moves: seq<Move>, states: seq<ProfileState>, k: CounterKey)
    requires IsRun(u, moves, states)
    ensures var h, s := Calls(moves, |moves|), states[|moves|];
            && Conserves(u, h, |h|, s, k)
            && (CountOf(u, h, |h|, k) < LIMIT ==>
                  HandedCount(s.handed, k) + LiveCount(s.counters, k) == CountOf(u, h, |h|, k))
            && (TimeOf(u, h, |h|, k) < LIMIT ==>
                  HandedTime(s.handed, k) + LiveTime(s.counters, k) == TimeOf(u, h, |h|, k))
  {
    RunAgrees(u, moves, states, |moves|);
    var h, s := Calls(moves, |moves|), states[|moves|];
    assert Conserves(u, h, |h|, s, k);
    ShowsExactly(HandedCount(s.handed, k) + LiveCount(s.counters, k), CountOf(u, h, |h|, k));
    ShowsExactly(HandedTime(s.handed, k) + LiveTime(s.counters, k), TimeOf(u, h, |h|, k));
  }

  lemma {:induction false} ShowsExactly(part: nat, whole: nat)
    requires Shows(part, whole)
    ensures whole < LIMIT ==> part == whole
  {
  }
}
