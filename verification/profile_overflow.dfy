/** Exactly when the 64-bit counters of profile mode lose something. */
module ProfileOverflow {
  import opened Common
  import opened Tracer
  import opened TracerHistory
  import opened Profile

  // ---------- Counters in general ----------

  /** A live 64-bit counter, what has been handed over from it, and the true number. */
  datatype Tally = Tally(live: nat, handed: nat, whole: nat) {
    function After(taken: bool, more: nat): Tally {
      if taken then Tally(0, handed + live, whole + more) else Tally(Word64(live + more), handed, whole + more)
    }
  }

  /** What has been added since the counter was last taken. */
  function Since(taken: seq<bool>, more: seq<nat>, n: nat): nat
    requires n <= |taken| == |more|
  {
    if n == 0 || taken[n - 1] then 0 else Since(taken, more, n - 1) + more[n - 1]
  }

  /** It has never reached 2^64. */
  ghost predicate Fits(taken: seq<bool>, more: seq<nat>, n: nat)
    requires n <= |taken| == |more|
  {
    forall m | 0 <= m <= n :: Since(taken, more, m) < LIMIT
  }

  ghost predicate Tallied(ts: seq<Tally>, taken: seq<bool>, more: seq<nat>) {
    && |ts| == |taken| + 1 == |more| + 1 && ts[0] == Tally(0, 0, 0)
    && forall n | 0 <= n < |taken| :: TalliedAt(ts, taken, more, n)
  }

  ghost predicate TalliedAt(ts: seq<Tally>, taken: seq<bool>, more: seq<nat>, n: nat)
    requires n < |taken| && |ts| == |taken| + 1 == |more| + 1
  {
    ts[n + 1] == ts[n].After(taken[n], more[n]) && more[n] < LIMIT && (taken[n] ==> more[n] == 0)
  }

  /** While everything fits, the live counter is what was added since it was last taken and nothing is
      missing; afterwards something is missing for good. */
  predicate Exact(t: Tally, since: nat, fits: bool) {
    if fits then t.live == since < LIMIT && t.handed + t.live == t.whole else t.handed + t.live < t.whole
  }

  lemma {:induction false} ExactStep(t: Tally, since: nat, fits: bool, taken: bool, more: nat)
    requires Exact(t, since, fits) && more < LIMIT && (taken ==> more == 0)
    ensures var since' := if taken then 0 else since + more;
            Exact(t.After(taken, more), since', fits && since' < LIMIT)
  {
    if !taken && t.live + more < LIMIT {
      assert Word64(t.live + more) == t.live + more;
    } else if !taken && fits {
      assert Word64(t.live + more) == t.live + more - LIMIT;
    } else if !taken {
      assert Word64(t.live + more) <= t.live + more;
    }
  }

  lemma {:induction false} ExactAlways(ts: seq<Tally>, taken: seq<bool>, more: seq<nat>, n: nat)
    requires Tallied(ts, taken, more) && n <= |taken|
    ensures Exact(ts[n], Since(taken, more, n), Fits(taken, more, n))
  {
    if n == 0 {
    } else {
      ExactAlways(ts, taken, more, n - 1);
      assert TalliedAt(ts, taken, more, n - 1);
      ExactStep(ts[n - 1], Since(taken, more, n - 1), Fits(taken, more, n - 1), taken[n - 1], more[n - 1]);
    }
  }

  /** Nothing is missing if and only if no more than fits was ever added between two takings. */
  lemma {:induction false} NothingMissing(ts: seq<Tally>, taken: seq<bool>, more: seq<nat>)
    requires Tallied(ts, taken, more)
    ensures var t := ts[|taken|]; t.handed + t.live == t.whole <==> Fits(taken, more, |taken|)
  {
    ExactAlways(ts, taken, more, |taken|);
  }

  // ---------- The counters of profile mode ----------

  /** What move `n` adds to the number of exits counted at `k`, and to their time. */
  ghost function MoreCount(u: Setup, moves: seq<Move>, k: CounterKey, n: nat): nat
    requires n < |moves|
  {
    var h, p := Calls(moves, |moves|), Made(moves, n);
    if moves[n].Probe? && p < |h| && Counts(u.config, h, p) && CountedAt(u, h, p) == k then 1 else 0
  }

  ghost function MoreTime(u: Setup, moves: seq<Move>, k: CounterKey, n: nat): (t: nat)
    requires n < |moves|
    ensures t < LIMIT
  {
    var h, p := Calls(moves, |moves|), Made(moves, n);
    if moves[n].Probe? && p < |h| && Counts(u.config, h, p) && CountedAt(u, h, p) == k
    then Elapsed(ExitTime(h[p]), EntryClock(u.config, h, p)) else 0
  }

  ghost function CountsAdded(u: Setup, moves: seq<Move>, k: CounterKey): (r: seq<nat>)
    ensures |r| == |moves|
  {
    seq(|moves|, n requires 0 <= n < |moves| => MoreCount(u, moves, k, n))
  }

  ghost function TimesAdded(u: Setup, moves: seq<Move>, k: CounterKey): (r: seq<nat>)
    ensures |r| == |moves|
  {
    seq(|moves|, n requires 0 <= n < |moves| => MoreTime(u, moves, k, n))
  }

  /** Which moves are drains that take the counter of `k`. */
  function Takes(m: Move, k: CounterKey): bool { m.Drain? && k in m.batch && Ripe(k, m.upTo) }

  function Takings(moves: seq<Move>, k: CounterKey): (r: seq<bool>)
    ensures |r| == |moves|
  {
    seq(|moves|, n requires 0 <= n < |moves| => Takes(moves[n], k))
  }

  ghost function CountTally(u: Setup, h: seq<Call>, p: nat, s: ProfileState, k: CounterKey): Tally
    requires p <= |h|
  {
    Tally(LiveCount(s.counters, k), HandedCount(s.handed, k), CountOf(u, h, p, k))
  }

  ghost function TimeTally(u: Setup, h: seq<Call>, p: nat, s: ProfileState, k: CounterKey): Tally
    requires p <= |h|
  {
    Tally(LiveTime(s.counters, k), HandedTime(s.handed, k), TimeOf(u, h, p, k))
  }

  lemma {:induction false} CallTallies(u: Setup, h: seq<Call>, p: nat, s: ProfileState, k: CounterKey)
    requires p < |h| && PidsAgree(u.config, h, p, s.pids) && EntriesAgree(u.config, h, p, s.entries)
    ensures var t, hit := OnCall(u, s, h[p]), Counts(u.config, h, p) && CountedAt(u, h, p) == k;
            var time := if hit then Elapsed(ExitTime(h[p]), EntryClock(u.config, h, p)) else 0;
            && CountTally(u, h, p + 1, t, k) == CountTally(u, h, p, s, k).After(false, if hit then 1 else 0)
            && TimeTally(u, h, p + 1, t, k) == TimeTally(u, h, p, s, k).After(false, time)
  {
    CounterWritten(u, h, p, s);
    if Counts(u.config, h, p) {
      BumpedShows(s.counters, CountedAt(u, h, p), Elapsed(ExitTime(h[p]), EntryClock(u.config, h, p)), k);
    }
    WordOf(LiveCount(s.counters, k));
    WordOf(LiveTime(s.counters, k));
  }

  lemma {:induction false} DrainTallies(u: Setup, h: seq<Call>, p: nat, s: ProfileState, upTo: nat, batch: seq<CounterKey>, k: CounterKey)
    requires p <= |h| && Distinct(batch) && Holds(s.counters, batch)
    ensures var t, taken := OnDrain(s, upTo, batch), k in batch && Ripe(k, upTo);
            && CountTally(u, h, p, t, k) == CountTally(u, h, p, s, k).After(taken, 0)
            && TimeTally(u, h, p, t, k) == TimeTally(u, h, p, s, k).After(taken, 0)
  {
    DrainMoves(s, upTo, batch, k);
    WordOf(LiveCount(s.counters, k));
    WordOf(LiveTime(s.counters, k));
  }

  /** What move `n` does to the tallies of `k`. */
  lemma {:induction false} MoveTallies(u: Setup, moves: seq<Move>, states: seq<ProfileState>, n: nat, k: CounterKey)
    requires IsRun(u, moves, states) && n < |moves|
    ensures var h, p, q := Calls(moves, |moves|), Made(moves, n), Made(moves, n + 1);
            var taken, count, time := Takes(moves[n], k), MoreCount(u, moves, k, n), MoreTime(u, moves, k, n);
            && p <= q <= |h| && (taken ==> count == time == 0)
            && CountTally(u, h, q, states[n + 1], k) == CountTally(u, h, p, states[n], k).After(taken, count)
            && TimeTally(u, h, q, states[n + 1], k) == TimeTally(u, h, p, states[n], k).After(taken, time)
  {
    var h, p := Calls(moves, |moves|), Made(moves, n);
    MapsAgree(u, moves, states, n);
    MadeStep(moves, n);
    assert StepsAt(u, moves, states, n);
    match moves[n]
    case Probe(call) => CallTallies(u, h, p, states[n], k);
    case Drain(upTo, batch) => DrainTallies(u, h, p, states[n], upTo, batch, k);
  }

  lemma {:induction false} MapsAgree(u: Setup, moves: seq<Move>, states: seq<ProfileState>, n: nat)
    requires IsRun(u, moves, states) && n <= |moves|
    ensures Made(moves, n) <= |Calls(moves, |moves|)|
    ensures PidsAgree(u.config, Calls(moves, |moves|), Made(moves, n), states[n].pids)
    ensures EntriesAgree(u.config, Calls(moves, |moves|), Made(moves, n), states[n].entries)
  {
    Profile.RunAgrees(u, moves, states, n);
  }

  ghost function CountTallies(u: Setup, moves: seq<Move>, states: seq<ProfileState>, k: CounterKey): (ts: seq<Tally>)
    requires IsRun(u, moves, states)
    ensures |ts| == |moves| + 1
  {
    seq(|moves| + 1, n requires 0 <= n <= |moves| =>
      CallsGrow(moves, n, |moves|);
      CountTally(u, Calls(moves, |moves|), Made(moves, n), states[n], k))
  }

  ghost function TimeTallies(u: Setup, moves: seq<Move>, states: seq<ProfileState>, k: CounterKey): (ts: seq<Tally>)
    requires IsRun(u, moves, states)
    ensures |ts| == |moves| + 1
  {
    seq(|moves| + 1, n requires 0 <= n <= |moves| =>
      CallsGrow(moves, n, |moves|);
      TimeTally(u, Calls(moves, |moves|), Made(moves, n), states[n], k))
  }

  lemma {:induction false} CountsTallied(u: Setup, moves: seq<Move>, states: seq<ProfileState>, k: CounterKey)
    requires IsRun(u, moves, states)
    ensures Tallied(CountTallies(u, moves, states, k), Takings(moves, k), CountsAdded(u, moves, k))
  {
    var counts := CountTallies(u, moves, states, k);
    forall n | 0 <= n < |moves| ensures TalliedAt(counts, Takings(moves, k), CountsAdded(u, moves, k), n) {
      MoveTallies(u, moves, states, n, k);
    }
  }

  lemma {:induction false} TimesTallied(u: Setup, moves: seq<Move>, states: seq<ProfileState>, k: CounterKey)
    requires IsRun(u, moves, states)
    ensures Tallied(TimeTallies(u, moves, states, k), Takings(moves, k), TimesAdded(u, moves, k))
  {
    var times := TimeTallies(u, moves, states, k);
    forall n | 0 <= n < |moves| ensures TalliedAt(times, Takings(moves, k), TimesAdded(u, moves, k), n) {
      MoveTallies(u, moves, states, n, k);
    }
  }

  /** For every run and key: what was handed over and what is in the map are together exactly the number
      of exits counted there if and only if never were 2^64 of them counted between two drains that take
      the counter; and likewise for their time. */
  lemma {:induction false} ConservationExactly(u: Setup, moves: seq<Move>, states: seq<ProfileState>, k: CounterKey)
    requires IsRun(u, moves, states)
    ensures var h, s := Calls(moves, |moves|), states[|moves|];
            && (HandedCount(s.handed, k) + LiveCount(s.counters, k) == CountOf(u, h, |h|, k)
                <==> Fits(Takings(moves, k), CountsAdded(u, moves, k), |moves|))
            && (HandedTime(s.handed, k) + LiveTime(s.counters, k) == TimeOf(u, h, |h|, k)
                <==> Fits(Takings(moves, k), TimesAdded(u, moves, k), |moves|))
  {
    CountsTallied(u, moves, states, k);
    TimesTallied(u, moves, states, k);
    NothingMissing(CountTallies(u, moves, states, k), Takings(moves, k), CountsAdded(u, moves, k));
    NothingMissing(TimeTallies(u, moves, states, k), Takings(moves, k), TimesAdded(u, moves, k));
  }
}
