/** The in-kernel tracer in trace mode as a machine over its maps: src/datacrumbs/server/bpf/common.h,
    src/datacrumbs/server/bpf/init.bpf.c and the sys_io plugin's sysio.bpf.c.  Each call of a probe is one
    atomic step.  The maps are never full; the ring buffer may refuse any reservation. */
module Tracer {
  import opened Common
  import opened PathHash

  /** What the build fixes: the shortest duration reported and whether every process is traced. */
  datatype Config = Config(skip: U64, traceAll: bool)

  /** One probe call by thread `id`, at time `clock`.  `room` says whether the ring buffer grants the
      reservation, `rc` is the probed function's return value, and `included` the answer of the search
      for the path among the traced prefixes.  Forget is the server removing hashes it has read. */
  datatype Call =
    | Entry(id: U64, event: U64, clock: U64)
    | Exit(id: U64, event: U64, clock: U64, room: bool)
    | ForkExit(id: U64, event: U64, clock: U64, rc: U64, exitClock: U64, room: bool)
    | Start(id: U64, clock: U64, room: bool)
    | Stop(id: U64, clock: U64, room: bool)
    | FdEntry(id: U64, event: U64, clock: U64, fd: int)
    | IoExit(id: U64, event: U64, clock: U64, rc: U64, data: bool, room: bool)
    | OpenEntry(id: U64, event: U64, clock: U64, path: Path, included: bool)
    | OpenExit(id: U64, event: U64, clock: U64, rc: U64, room: bool)
    | Forget(keys: set<MemoKey>)

  /** Which calls of which thread: the key of the maps that connect an exit to its entry. */
  datatype Key = Key(id: U64, event: U64)

  datatype File = File(id: U64, fd: int)

  datatype Record =
    | General(id: U64, event: U64, ts: U64, dur: U64)
    | Io(id: U64, event: U64, ts: U64, dur: U64, fhash: U32, size: U64)

  const START_EVENT: U64 := 1
  const STOP_EVENT: U64 := 2
  const FAILED_KEY: U32 := 2

  datatype State = State(
    pids: map<U32, U64>,
    entries: map<Key, U64>,
    fds: map<Key, int>,
    names: map<Key, U32>,
    files: map<File, U32>,
    memo: Memo,
    failed: map<U32, U32>,
    output: seq<Record>)

  const EMPTY := State(map[], map[], map[], map[], map[], map[], map[], [])

  /** The thread number, the lower half of the identifier. */
  function Thread(id: U64): U32 { Word(id) }

  /** Unsigned 64-bit subtraction. */
  function Elapsed(te: U64, ts: U64): U64 { (te - ts) % LIMIT }

  /** A return value read as a C int. */
  function AsInt(rc: U64): int {
    if Word(rc) < 0x8000_0000 then Word(rc) else Word(rc) - 0x1_0000_0000
  }

  predicate NeedTracing(c: Config, s: State, id: U64) {
    c.traceAll || (Thread(id) in s.pids && id != 0)
  }

  function MarkFailed(failed: map<U32, U32>): map<U32, U32> {
    var count: int := if FAILED_KEY in failed then failed[FAILED_KEY] else 0;
    failed[FAILED_KEY := Word(count + 1)]
  }

  /** Reserves room for a record and submits it, or counts the failure. */
  function Submit(s: State, r: Record, room: bool): (t: State)
    ensures t == s.(output := t.output, failed := t.failed)
  {
    if room then s.(output := s.output + [r]) else s.(failed := MarkFailed(s.failed))
  }

  /** An exit reports something when its entry was seen and was long enough ago. */
  predicate Reports(c: Config, s: State, key: Key, te: U64) {
    NeedTracing(c, s, key.id) && key in s.entries && Elapsed(te, s.entries[key]) >= c.skip
  }

  function GenericEntry(c: Config, s: State, key: Key, clock: U64): (t: State)
    ensures t == s.(entries := t.entries)
  {
    if NeedTracing(c, s, key.id) then s.(entries := s.entries[key := clock]) else s
  }

  function GenericExit(c: Config, s: State, key: Key, te: U64, room: bool): (t: State)
    ensures t == s.(output := t.output, failed := t.failed)
  {
    if !Reports(c, s, key, te) then s
    else
      var ts := s.entries[key];
      Submit(s, General(key.id, key.event, ts, Elapsed(te, ts)), room)
  }

  function ForkedChild(c: Config, s: State, id: U64, clock: U64, rc: U64): (t: State)
    ensures t == s.(pids := t.pids)
  {
    if NeedTracing(c, s, id) && Word(rc) != 0 then s.(pids := s.pids[Word(rc) := clock]) else s
  }

  function DoStart(s: State, id: U64, clock: U64, room: bool): (t: State)
    ensures t == s.(pids := t.pids, output := t.output, failed := t.failed)
  {
    var t := Thread(id);
    var since := if t in s.pids then s.pids[t] else clock;
    Submit(s.(pids := s.pids[t := since]), General(id, START_EVENT, since, 0), room)
  }

  function DoStop(s: State, id: U64, clock: U64, room: bool): (t: State)
    ensures t == s.(pids := t.pids, output := t.output, failed := t.failed)
  {
    Submit(s.(pids := s.pids - {Thread(id)}), General(id, STOP_EVENT, clock, 0), room)
  }

  function SysioFdInit(c: Config, s: State, key: Key, clock: U64, fd: int): (t: State)
    ensures t == s.(fds := t.fds, entries := t.entries)
  {
    if NeedTracing(c, s, key.id) then s.(fds := s.fds[key := fd], entries := s.entries[key := clock]) else s
  }

  function FileHash(s: State, key: Key): U32 {
    if key in s.fds && File(key.id, s.fds[key]) in s.files then s.files[File(key.id, s.fds[key])] else 0
  }

  /** `sysio_data_exit` reports the size moved, `sysio_metadata_exit` none. */
  function SysioExit(c: Config, s: State, key: Key, te: U64, rc: U64, data: bool, room: bool): (t: State)
    ensures t == s.(output := t.output, failed := t.failed)
  {
    if !Reports(c, s, key, te) then s
    else
      var ts := s.entries[key];
      Submit(s, Io(key.id, key.event, ts, Elapsed(te, ts), FileHash(s, key), if data then rc else 0), room)
  }

  function SysioOpenEntry(c: Config, s: State, key: Key, clock: U64, path: Path, included: bool): (t: State)
    ensures t == s.(memo := t.memo, names := t.names, entries := t.entries)
  {
    if !NeedTracing(c, s, key.id) || !included then s
    else
      var memo := Remember(s.memo, path);
      s.(memo := memo, names := s.names[key := memo[PathHash.Key(path)]], entries := s.entries[key := clock])
  }

  function SysioOpenExit(c: Config, s: State, key: Key, te: U64, rc: U64, room: bool): (t: State)
    ensures t == s.(output := t.output, failed := t.failed, files := t.files)
  {
    if !Reports(c, s, key, te) then s
    else
      var ts, fd := s.entries[key], AsInt(rc);
      var hash := if key in s.names then s.names[key] else 0;
      var r := Io(key.id, key.event, ts, Elapsed(te, ts), hash, 0);
      if room && key in s.names && fd > 0 then Submit(s.(files := s.files[File(key.id, fd) := hash]), r, room)
      else Submit(s, r, room)
  }

  function Step(c: Config, s: State, call: Call): State {
    match call
    case Entry(id, event, clock) => GenericEntry(c, s, Key(id, event), clock)
    case Exit(id, event, clock, room) => GenericExit(c, s, Key(id, event), clock, room)
    case ForkExit(id, event, clock, rc, exitClock, room) =>
      GenericExit(c, ForkedChild(c, s, id, clock, rc), Key(id, event), exitClock, room)
    case Start(id, clock, room) => DoStart(s, id, clock, room)
    case Stop(id, clock, room) => DoStop(s, id, clock, room)
    case FdEntry(id, event, clock, fd) => SysioFdInit(c, s, Key(id, event), clock, fd)
    case IoExit(id, event, clock, rc, data, room) => SysioExit(c, s, Key(id, event), clock, rc, data, room)
    case OpenEntry(id, event, clock, path, included) => SysioOpenEntry(c, s, Key(id, event), clock, path, included)
    case OpenExit(id, event, clock, rc, room) => SysioOpenExit(c, s, Key(id, event), clock, rc, room)
    case Forget(keys) => s.(memo := s.memo - keys)
  }

  /** The state after the first `n` calls. */
  function Run(c: Config, h: seq<Call>, n: nat): State
    requires n <= |h|
  {
    if n == 0 then EMPTY else Step(c, Run(c, h, n - 1), h[n - 1])
  }
}
