/** The tracer's handlers, updating their maps in place. */
module TracerMaps {
  import opened Common
  import opened PathHash
  import opened Tracer
  import opened TracerHistory

  class Maps {
    const config: Config
    var pidMap: map<U32, U64>
    var fnPidMap: map<Tracer.Key, U64>
    var latestFd: map<Tracer.Key, int>
    var latestFname: map<Tracer.Key, U32>
    var fdFname: map<File, U32>
    var fileMap: Memo
    var failedRequest: map<U32, U32>
    var output: seq<Record>
    ghost var history: seq<Call>

    ghost function Now(): State
      reads this
    {
      State(pidMap, fnPidMap, latestFd, latestFname, fdFname, fileMap, failedRequest, output)
    }

    /** The maps are what the machine computes from the calls handled so far. */
    ghost predicate Valid()
      reads this
    {
      Now() == Run(config, history, |history|)
    }

    constructor (c: Config)
      ensures Valid() && config == c && history == []
    {
      config := c;
      pidMap, fnPidMap, latestFd, latestFname, fdFname := map[], map[], map[], map[], map[];
      fileMap, failedRequest, output, history := map[], map[], [], [];
    }

    method NeedTracing(id: U64) returns (yes: bool)
      ensures yes == Tracer.NeedTracing(config, Now(), id)
    {
      if config.traceAll {
        return true;
      }
      if Thread(id) !in pidMap || id == 0 {
        return false;
      }
      return true;
    }

    method MarkFailedEvents()
      modifies this`failedRequest
      ensures failedRequest == MarkFailed(old(failedRequest))
    {
      if FAILED_KEY !in failedRequest {
        failedRequest := failedRequest[FAILED_KEY := 0];
      }
      var count: int := failedRequest[FAILED_KEY];
      failedRequest := failedRequest[FAILED_KEY := Word(count + 1)];
    }

    method ReserveAndSubmit(r: Record, room: bool)
      modifies this`output, this`failedRequest
      ensures Now() == Submit(old(Now()), r, room)
    {
      if !room {
        MarkFailedEvents();
        return;
      }
      output := output + [r];
    }

    method GenericEntry(id: U64, event: U64, clock: U64)
      modifies this`fnPidMap
      ensures Now() == Tracer.GenericEntry(config, old(Now()), Key(id, event), clock)
    {
      var yes := NeedTracing(id);
      if !yes {
        return;
      }
      fnPidMap := fnPidMap[Key(id, event) := clock];
    }

    /** The start time of a call whose exit is to be reported. */
    method EntryTime(key: Tracer.Key, te: U64) returns (ts: Option<U64>)
      ensures ts.Some? <==> Reports(config, Now(), key, te)
      ensures ts.Some? ==> ts.value == fnPidMap[key]
    {
      var yes := NeedTracing(key.id);
      if !yes || key !in fnPidMap || Elapsed(te, fnPidMap[key]) < config.skip {
        return None;
      }
      return Some(fnPidMap[key]);
    }

    method GenericExit(id: U64, event: U64, te: U64, room: bool)
      modifies this`output, this`failedRequest
      ensures Now() == Tracer.GenericExit(config, old(Now()), Key(id, event), te, room)
    {
      var ts := EntryTime(Key(id, event), te);
      if ts.Some? {
        ReserveAndSubmit(General(id, event, ts.value, Elapsed(te, ts.value)), room);
      }
    }

    method GenericForkExit(id: U64, event: U64, clock: U64, rc: U64, exitClock: U64, room: bool)
      modifies this`pidMap, this`output, this`failedRequest
      ensures Now() == Tracer.GenericExit(config, ForkedChild(config, old(Now()), id, clock, rc),
                                          Key(id, event), exitClock, room)
    {
      var yes := NeedTracing(id);
      if yes {
        var pid := Word(rc);
        if pid != 0 {
          pidMap := pidMap[pid := clock];
        }
      }
      GenericExit(id, event, exitClock, room);
    }

    method TraceStart(id: U64, clock: U64, room: bool)
      modifies this`pidMap, this`output, this`failedRequest
      ensures Now() == DoStart(old(Now()), id, clock, room)
    {
      var since, pid := clock, Thread(id);
      if pid in pidMap {
        since := pidMap[pid];
      }
      pidMap := pidMap[pid := since];
      ReserveAndSubmit(General(id, START_EVENT, since, 0), room);
    }

    method TraceStop(id: U64, clock: U64, room: bool)
      modifies this`pidMap, this`output, this`failedRequest
      ensures Now() == DoStop(old(Now()), id, clock, room)
    {
      pidMap := pidMap - {Thread(id)};
      ReserveAndSubmit(General(id, STOP_EVENT, clock, 0), room);
    }

    method SysioFdInit(id: U64, event: U64, clock: U64, fd: int)
      modifies this`latestFd, this`fnPidMap
      ensures Now() == Tracer.SysioFdInit(config, old(Now()), Key(id, event), clock, fd)
    {
      var yes := NeedTracing(id);
      if !yes {
        return;
      }
      latestFd := latestFd[Key(id, event) := fd];
      fnPidMap := fnPidMap[Key(id, event) := clock];
    }

    method SysioExit(id: U64, event: U64, te: U64, rc: U64, data: bool, room: bool)
      modifies this`output, this`failedRequest
      ensures Now() == Tracer.SysioExit(config, old(Now()), Key(id, event), te, rc, data, room)
    {
      var key := Key(id, event);
      var ts := EntryTime(key, te);
      if ts.Some? {
        var size: U64, fhash: U32 := 0, 0;
        if data {
          size := rc;
        }
        if key in latestFd {
          var file := File(id, latestFd[key]);
          if file in fdFname {
            fhash := fdFname[file];
          }
        }
        ReserveAndSubmit(Io(id, event, ts.value, Elapsed(te, ts.value), fhash, size), room);
      }
    }

    method SysioOpenEntry(id: U64, event: U64, clock: U64, path: Path, included: bool)
      requires Remembers(fileMap)
      modifies this`fileMap, this`latestFname, this`fnPidMap
      ensures Now() == Tracer.SysioOpenEntry(config, old(Now()), Key(id, event), clock, path, included)
    {
      var yes := NeedTracing(id);
      if !yes || !included {
        return;
      }
      var fhash, after := HashAndStore(fileMap, path);
      fileMap := after;
      latestFname := latestFname[Key(id, event) := fhash];
      fnPidMap := fnPidMap[Key(id, event) := clock];
    }

    method SysioOpenExit(id: U64, event: U64, te: U64, rc: U64, room: bool)
      modifies this`fdFname, this`output, this`failedRequest
      ensures Now() == Tracer.SysioOpenExit(config, old(Now()), Key(id, event), te, rc, room)
    {
      var key := Key(id, event);
      var ts := EntryTime(key, te);
      if ts.Some? {
        var fhash: U32 := 0;
        if room && key in latestFname {
          fhash := latestFname[key];
          var fd := AsInt(rc);
          if fd > 0 {
            fdFname := fdFname[File(id, fd) := fhash];
          }
        }
        ReserveAndSubmit(Io(id, event, ts.value, Elapsed(te, ts.value), fhash, 0), room);
      }
    }

    /** Runs the handler of one probe call. */
    method Handle(call: Call)
      requires Valid()
      modifies this
      ensures Valid() && history == old(history) + [call]
    {
      MemoIsTrue(config, history, |history|);
      match call {
        case Entry(id, event, clock) => GenericEntry(id, event, clock);
        case Exit(id, event, clock, room) => GenericExit(id, event, clock, room);
        case ForkExit(id, event, clock, rc, exitClock, room) => GenericForkExit(id, event, clock, rc, exitClock, room);
        case Start(id, clock, room) => TraceStart(id, clock, room);
        case Stop(id, clock, room) => TraceStop(id, clock, room);
        case FdEntry(id, event, clock, fd) => SysioFdInit(id, event, clock, fd);
        case IoExit(id, event, clock, rc, data, room) => SysioExit(id, event, clock, rc, data, room);
        case OpenEntry(id, event, clock, path, included) => SysioOpenEntry(id, event, clock, path, included);
        case OpenExit(id, event, clock, rc, room) => SysioOpenExit(id, event, clock, rc, room);
        case Forget(keys) => fileMap := fileMap - keys;
      }
      Recorded(config, old(history), call, old(Now()), Now());
      history := history + [call];
    }
  }

  lemma {:induction false} Recorded(c: Config, h: seq<Call>, call: Call, s: State, t: State)
    requires s == Run(c, h, |h|) && t == Step(c, s, call)
    ensures t == Run(c, h + [call], |h| + 1)
  {
    RunPrefix(c, h, [call], |h|);
  }

  lemma {:induction false} MemoIsTrue(c: Config, h: seq<Call>, n: nat)
    requires n <= |h|
    ensures Remembers(Run(c, h, n).memo)
  {
    RunAgrees(c, h, n);
  }

  lemma {:induction false} RunPrefix(c: Config, h: seq<Call>, more: seq<Call>, n: nat)
    requires n <= |h|
    ensures Run(c, h + more, n) == Run(c, h, n)
  {
    if n == 0 {
    } else {
      RunPrefix(c, h, more, n - 1);
    }
  }
}
