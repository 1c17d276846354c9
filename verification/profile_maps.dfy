/** The maps of profile mode updated in place: the kernel's handlers, and the server's polling and
    final drain (src/datacrumbs/server/process/server.impl.cpp). */
module ProfileMaps {
  import opened Common
  import opened PathHash
  import opened Tracer
  import opened TracerHistory
  import opened Profile
  import ProfileOverflow

  /** What the kernel's batch lookup comes back with. */
  datatype Lookup = Failed | Batch(keys: seq<CounterKey>, values: seq<Counter>)

  /** A lookup that does not fail returns up to `size` entries, and none only when there are none. */
  predicate Finds(counters: Counters, size: nat, r: Lookup) {
    r.Batch? ==>
      && Distinct(r.keys) && Holds(counters, r.keys) && r.values == ValuesOf(counters, r.keys)
      && |r.keys| <= size && (|r.keys| == 0 ==> counters == map[])
  }

  function ValuesOf(counters: Counters, keys: seq<CounterKey>): seq<Counter>
    requires Holds(counters, keys)
  {
    seq(|keys|, i requires 0 <= i < |keys| => counters[keys[i]])
  }

  class Maps {
    const setup: Setup
    var pidMap: map<U32, U64>
    var fnPidMap: map<Tracer.Key, U64>
    var profile: Counters
    var latestInterval: Option<nat>
    var handed: seq<Handed>
    ghost var moves: seq<Move>
    ghost var states: seq<ProfileState>
    ghost var lookups: seq<Lookup>  // the answers of all batch lookups so far

    ghost function Now(): ProfileState
      reads this
    {
      ProfileState(pidMap, fnPidMap, profile, latestInterval, handed)
    }

    /** `moves` is a run that ends in the present maps. */
    ghost predicate Valid()
      reads this
    {
      IsRun(setup, moves, states) && Now() == states[|moves|]
    }

    constructor (u: Setup)
      ensures Valid() && setup == u && moves == []
    {
      setup := u;
      pidMap, fnPidMap, profile, latestInterval, handed := map[], map[], map[], None, [];
      moves, states, lookups := [], [FRESH], [];
    }

    method NeedTracing(id: U64) returns (yes: bool)
      ensures yes == Traces(setup, Now(), id)
    {
      if setup.config.traceAll {
        return true;
      }
      if Thread(id) !in pidMap || id == 0 {
        return false;
      }
      return true;
    }

    method GenericExit(key: Tracer.Key, te: U64)
      modifies this`profile, this`latestInterval
      ensures Now() == CountExit(setup, old(Now()), key, te)
    {
      var yes := NeedTracing(key.id);
      if !yes || key !in fnPidMap {
        return;
      }
      var ts := fnPidMap[key];
      var counter := CounterKey(key.id, key.event, ts / setup.period);
      if counter !in profile {
        profile := profile[counter := Counter(0, 0)];
      }
      var value := profile[counter];
      var frequency: int, duration: int := value.frequency, value.duration;
      profile := profile[counter := Counter(Word64(frequency + 1), Word64(duration + Elapsed(te, ts)))];
      latestInterval := Some(counter.interval);
    }

    method RecordEntry(call: Call)
      requires IsEntry(call)
      modifies this`fnPidMap
      ensures Now() == OnCall(setup, old(Now()), call)
    {
      var yes := NeedTracing(call.id);
      if yes {
        fnPidMap := fnPidMap[KeyOf(call) := call.clock];
      }
    }

    method TraceStart(id: U64, clock: U64, room: bool)
      modifies this`pidMap, this`latestInterval
      ensures Now() == OnCall(setup, old(Now()), Start(id, clock, room))
    {
      var since, pid := clock, Thread(id);
      if pid in pidMap {
        since := pidMap[pid];
      }
      latestInterval := Some(since / setup.period);
      pidMap := pidMap[pid := since];
    }

    method GenericForkExit(id: U64, event: U64, clock: U64, rc: U64, exitClock: U64, room: bool)
      modifies this`pidMap, this`profile, this`latestInterval
      ensures Now() == OnCall(setup, old(Now()), ForkExit(id, event, clock, rc, exitClock, room))
    {
      var yes := NeedTracing(id);
      if yes {
        var pid := Word(rc);
        if pid != 0 {
          pidMap := pidMap[pid := clock];
        }
      }
      GenericExit(Key(id, event), exitClock);
    }

    /** Runs the handler of one probe call. */
    method Handle(call: Call)
      requires Valid()
      modifies this
      ensures Valid() && moves == old(moves) + [Probe(call)]
    {
      match call {
        case Exit(id, event, clock, _) => GenericExit(Key(id, event), clock);
        case ForkExit(id, event, clock, rc, exitClock, room) => GenericForkExit(id, event, clock, rc, exitClock, room);
        case Start(id, clock, room) => TraceStart(id, clock, room);
        case Stop(id, _, _) => pidMap := pidMap - {Thread(id)};
        case Entry(_, _, _) => RecordEntry(call);
        case FdEntry(_, _, _, _) => RecordEntry(call);
        case OpenEntry(_, _, _, _, included) =>
          if included {
            RecordEntry(call);
          }
        case _ =>
      }
      assert Now() == Next(setup, old(Now()), Probe(call));
      Took(Probe(call), old(Now()));
    }

    /** Adds a move to the run. */
    ghost method Took(m: Move, before: ProfileState)
      requires IsRun(setup, moves, states) && before == states[|moves|] && Steps(setup, before, m, Now())
      modifies this`moves, this`states
      ensures Valid() && moves == old(moves) + [m]
    {
      ghost var oldMoves, oldStates := moves, states;
      moves, states := moves + [m], states + [Now()];
      forall n | 0 <= n < |moves| ensures StepsAt(setup, moves, states, n) {
        if n < |oldMoves| {
          assert StepsAt(setup, oldMoves, oldStates, n);
        }
      }
    }

    // ---------- The server ----------

    /** Hands over the ripe counters of a batch and lists their keys. */
    method HandRipe(upTo: nat, keys: seq<CounterKey>, values: seq<Counter>) returns (deleteKeys: array<CounterKey>, j: nat)
      requires Holds(profile, keys) && values == ValuesOf(profile, keys)
      modifies this`handed
      ensures j <= deleteKeys.Length && deleteKeys[..j] == RipeOf(keys, upTo)
      ensures handed == old(handed) + Hand(profile, RipeOf(keys, upTo))
    {
      deleteKeys := new CounterKey[|keys|];
      j := 0;
      ghost var due: seq<CounterKey>, out: seq<Handed> := [], [];
      var i := 0;
      while i < |keys|
        modifies this`handed, deleteKeys
        invariant 0 <= i <= |keys| && j <= i && due == RipeOf(keys[..i], upTo)
        invariant Holds(profile, due) && out == Hand(profile, due)
        invariant deleteKeys[..j] == due && handed == old(handed) + out
      {
        RipeSnoc(profile, keys, i, upTo, due);
        if upTo == 0 || keys[i].interval <= upTo {
          handed := handed + [Handed(keys[i], values[i])];
          Put(deleteKeys, j, keys[i]);
          j := j + 1;
          Associative(old(handed), out, [Handed(keys[i], values[i])]);
          due, out := due + [keys[i]], out + [Handed(keys[i], values[i])];
        }
        i := i + 1;
      }
      assert keys[..i] == keys;
    }

    /** Asks the kernel for a batch. */
    method LookupBatch(size: nat) returns (found: Lookup)
      modifies this`lookups
      ensures Finds(profile, size, found) && lookups == old(lookups) + [found]
    {
      assert Finds(profile, size, Failed);
      found :| Finds(profile, size, found);
      lookups := lookups + [found];
    }

    /** One call of the drain: hands over and deletes the ripe counters of one batch.  Returns -1 when
        the lookup fails or finds nothing. */
    method Lookup1(upTo: nat, batchSize: nat) returns (ret: int, ghost r: Lookup)
      requires Valid()
      modifies this`profile, this`handed, this`moves, this`states, this`lookups
      ensures Valid() && Finds(old(profile), batchSize, r) && lookups == old(lookups) + [r]
      ensures ret == if r.Failed? || |r.keys| == 0 then -1 else 0
      ensures ret == -1 ==> moves == old(moves) && Now() == old(Now())
      ensures ret == 0 ==> moves == old(moves) + [Drain(upTo, r.keys)] && Now() == OnDrain(old(Now()), upTo, r.keys)
    {
      var found := LookupBatch(batchSize);
      r := found;
      if found.Failed? || |found.keys| < 1 {
        return -1, r;
      }
      var deleteKeys, j := HandRipe(upTo, found.keys, found.values);
      profile := profile - (set k | k in deleteKeys[..j]);
      Took(Drain(upTo, found.keys), old(Now()));
      return 0, r;
    }

    /** One turn of the polling loop in profile mode: when the latest interval has changed since the last
        turn, one drain of the counters up to it. */
    method Poll(lastProcessed: nat) returns (last: nat)
      requires Valid()
      modifies this`profile, this`handed, this`moves, this`states, this`lookups
      ensures Valid()
      ensures last == if latestInterval.Some? then latestInterval.value else lastProcessed
      ensures if latestInterval.None? || lastProcessed == 0 || lastProcessed == latestInterval.value
              then moves == old(moves) && lookups == old(lookups)
              else
                exists r :: && lookups == old(lookups) + [r] && Finds(old(profile), 1024, r)
                            && moves == old(moves) + (if Ends(r) then [] else [Drain(latestInterval.value, r.keys)])
    {
      last := lastProcessed;
      if latestInterval.Some? {
        var latest := latestInterval.value;
        if last == 0 {
          last := latest;
        }
        if latest != last {
          last := latest;
          var ret, r := Lookup1(latest, 1024);
          assert lookups == old(lookups) + [r] && Finds(old(profile), 1024, r);
        }
      }
    }

    /** The final drain: it ends with the first lookup that fails or finds nothing, has drained every batch
        found before, and unless that lookup failed has handed over every exit counted before it. */
    method FinalDrain(batchSize: nat) returns (ghost found: seq<Lookup>, ghost last: Lookup)
      requires Valid()
      modifies this`profile, this`handed, this`moves, this`states, this`lookups
      ensures Valid() && lookups == old(lookups) + found + [last]
      ensures NoneEnds(found) && Ends(last) && moves == old(moves) + Drains(found)
      ensures !last.Failed? ==> profile == map[] && HandsOverAll(setup, Calls(old(moves), |old(moves)|), handed)
      ensures !last.Failed? ==>
                forall k :: HandsOverExactly(setup, Calls(old(moves), |old(moves)|), handed, k) <==> CountsFit(setup, moves, k)
    {
      found := [];
      while true
        invariant Valid() && lookups == old(lookups) + found
        invariant NoneEnds(found) && moves == old(moves) + Drains(found)
        decreases |profile|
      {
        ghost var before := Now();
        var ret, r := Lookup1(0, batchSize);
        if ret == -1 {
          last := r;
          break;
        }
        DrainsMore(old(moves), found, r);
        found := found + [r];
        Shrinks(before, r.keys);
      }
      if !last.Failed? {
        DrainsKeepCalls(old(moves), found);
        EmptyMapHandedAll(setup, moves, states);
      }
    }
  }

  /** The lookup ends a drain: it failed or found nothing. */
  predicate Ends(r: Lookup) { r.Failed? || |r.keys| == 0 }

  predicate NoneEnds(answers: seq<Lookup>) {
    forall i | 0 <= i < |answers| :: !Ends(answers[i])
  }

  /** The unlimited drains of the batches. */
  function Drains(answers: seq<Lookup>): seq<Move>
    requires NoneEnds(answers)
  {
    seq(|answers|, i requires 0 <= i < |answers| => Drain(0, answers[i].keys))
  }

  /** For every key the counters handed over are the number and the time of all exits counted there, in
      64-bit arithmetic. */
  ghost predicate HandsOverAll(u: Setup, h: seq<Call>, handed: seq<Handed>) {
    forall k :: HandsOver(u, h, handed, k)
  }

  ghost predicate HandsOver(u: Setup, h: seq<Call>, handed: seq<Handed>, k: CounterKey) {
    && Profile.Shows(HandedCount(handed, k), CountOf(u, h, |h|, k))
    && Profile.Shows(HandedTime(handed, k), TimeOf(u, h, |h|, k))
  }

  lemma {:induction false} DrainsMore(before: seq<Move>, found: seq<Lookup>, r: Lookup)
    requires NoneEnds(found) && !Ends(r)
    ensures NoneEnds(found + [r]) && before + Drains(found + [r]) == before + Drains(found) + [Drain(0, r.keys)]
  {
    assert Drains(found + [r]) == Drains(found) + [Drain(0, r.keys)];
  }

  /** Drains add no calls. */
  lemma {:induction false} DrainsKeepCalls(before: seq<Move>, answers: seq<Lookup>)
    requires NoneEnds(answers)
    ensures var after := before + Drains(answers); Calls(after, |after|) == Calls(before, |before|)
  {
    var after := before + Drains(answers);
    if |answers| == 0 {
      assert after == before;
    } else {
      var init := answers[..|answers| - 1];
      DrainsKeepCalls(before, init);
      assert Drains(answers) == Drains(init) + [Drain(0, answers[|answers| - 1].keys)];
      assert after == (before + Drains(init)) + [Drain(0, answers[|answers| - 1].keys)];
      CallsPrefix(after, before + Drains(init), |after| - 1);
    }
  }

  lemma {:induction false} CallsPrefix(moves: seq<Move>, init: seq<Move>, n: nat)
    requires n <= |init| && init <= moves
    ensures Calls(moves, n) == Calls(init, n)
  {
    if n == 0 {
    } else {
      CallsPrefix(moves, init, n - 1);
    }
  }

  /** The numbers handed over are the true ones, not only in 64-bit arithmetic. */
  ghost predicate HandsOverExactly(u: Setup, h: seq<Call>, handed: seq<Handed>, k: CounterKey) {
    HandedCount(handed, k) == CountOf(u, h, |h|, k) && HandedTime(handed, k) == TimeOf(u, h, |h|, k)
  }

  /** Neither the number nor the time of the exits counted at `k` reaches 2^64 between two drains that
      take the counter. */
  ghost predicate CountsFit(u: Setup, moves: seq<Move>, k: CounterKey) {
    var taken := ProfileOverflow.Takings(moves, k);
    && ProfileOverflow.Fits(taken, ProfileOverflow.CountsAdded(u, moves, k), |moves|)
    && ProfileOverflow.Fits(taken, ProfileOverflow.TimesAdded(u, moves, k), |moves|)
  }

  /** When the map is empty at the end of a run, everything has been handed over, and exactly if no
      counter has overflowed. */
  lemma {:induction false} EmptyMapHandedAll(u: Setup, moves: seq<Move>, states: seq<ProfileState>)
    requires IsRun(u, moves, states) && states[|moves|].counters == map[]
    ensures HandsOverAll(u, Calls(moves, |moves|), states[|moves|].handed)
    ensures forall k :: HandsOverExactly(u, Calls(moves, |moves|), states[|moves|].handed, k) <==> CountsFit(u, moves, k)
  {
    var h, handed := Calls(moves, |moves|), states[|moves|].handed;
    forall k ensures HandsOver(u, h, handed, k) {
      Conservation(u, moves, states, k);
    }
    forall k ensures HandsOverExactly(u, h, handed, k) <==> CountsFit(u, moves, k) {
      ProfileOverflow.ConservationExactly(u, moves, states, k);
    }
  }

  lemma {:induction false} RipeSnoc(counters: Counters, keys: seq<CounterKey>, i: nat, upTo: nat, due: seq<CounterKey>)
    requires i < |keys| && Holds(counters, keys) && due == RipeOf(keys[..i], upTo)
    ensures var k := keys[i];
            if Ripe(k, upTo) then
              RipeOf(keys[..i + 1], upTo) == due + [k] && Holds(counters, due + [k])
              && Hand(counters, due + [k]) == Hand(counters, due) + [Handed(k, counters[k])]
            else RipeOf(keys[..i + 1], upTo) == due
  {
    assert keys[..i + 1][..i] == keys[..i];
  }

  lemma {:induction false} AllRipe(batch: seq<CounterKey>)
    ensures RipeOf(batch, 0) == batch
  {
    if |batch| == 0 {
    } else {
      AllRipe(batch[..|batch| - 1]);
    }
  }

  /** A drain without a limit deletes its whole batch. */
  lemma {:induction false} Shrinks(s: ProfileState, batch: seq<CounterKey>)
    requires |batch| > 0 && Holds(s.counters, batch)
    ensures |OnDrain(s, 0, batch).counters| < |s.counters|
  {
    AllRipe(batch);
    var rest := OnDrain(s, 0, batch).counters;
    assert batch[0] in batch;
    assert rest.Keys <= s.counters.Keys - {batch[0]};
    SubsetSmaller(rest.Keys, s.counters.Keys - {batch[0]});
  }

  lemma {:induction false} SubsetSmaller<T>(a: set<T>, b: set<T>)
    requires a <= b
    ensures |a| <= |b|
  {
    assert b == a + (b - a);
  }
}
