/** The generator's event ids, category map and program names (src/datacrumbs/generator/generator.cpp). */
module ProbeGenerator {
  import opened Common
  import opened NumberText
  import opened ProbeNames

  datatype Kind = Syscalls | KProbe | UProbe | Usdt | Custom

  datatype Probe = Probe(kind: Kind, name: string, binary: string, provider: string, functions: seq<string>, startId: nat)

  /** A function of a probe with the event id it gets. */
  datatype Numbered = Numbered(id: nat, probe: Probe, func: string)

  datatype Category = Category(probe: string, func: string)

  /** What the generated code of a uprobe defines. */
  datatype Program = Program(id: nat, entry: string, exit: string, forks: bool)

  /** An entry of the file of manual probes: a binary and an event id as text. */
  datatype ManualFunction = ManualFunction(binary: string, id: string)

  const FIRST_ID := 1000

  /** What the map holds before the first probe. */
  const PREDEFINED: map<nat, Category> :=
    map[0 := Category("M", "SH"), 1 := Category("DC", "start"), 2 := Category("DC", "end")]

  // ---------- Numbering ----------

  /** How many ids of the counter the probes take; a custom probe brings its own. */
  function Counted(probes: seq<Probe>): nat {
    if |probes| == 0 then 0
    else
      var last := probes[|probes| - 1];
      Counted(probes[..|probes| - 1]) + if last.kind.Custom? then 0 else |last.functions|
  }

  function IdOf(p: Probe, counter: nat, k: nat): nat {
    if p.kind.Custom? then p.startId + k else counter + k
  }

  /** The functions of one probe, numbered from `counter`. */
  function NumberProbe(p: Probe, counter: nat): seq<Numbered> {
    seq(|p.functions|, k requires 0 <= k < |p.functions| => Numbered(IdOf(p, counter, k), p, p.functions[k]))
  }

  function NumberAll(probes: seq<Probe>): seq<Numbered> {
    if |probes| == 0 then []
    else
      var init := probes[..|probes| - 1];
      NumberAll(init) + NumberProbe(probes[|probes| - 1], FIRST_ID + Counted(init))
  }

  /** The category map: the last function numbered with an id keeps it. */
  function Categories(ws: seq<Numbered>): map<nat, Category> {
    if |ws| == 0 then PREDEFINED
    else
      var last := ws[|ws| - 1];
      Categories(ws[..|ws| - 1])[last.id := Category(last.probe.name, last.func)]
  }

  /** The name under which a function counts as already processed. */
  function Combined(w: Numbered): string {
    match w.probe.kind
    case UProbe => w.probe.binary + "_" + NameOf(w.func) + "_" + OffsetOf(w.func)
    case Usdt => w.probe.binary + "_" + w.probe.provider + "_" + w.func
    case _ => w.func
  }

  /** What has come out so far: the names processed, the functions that got a uprobe program, and those
      of them left to be attached by hand. */
  datatype Output = Output(names: set<string>, programs: seq<Numbered>, manual: seq<Numbered>)

  function Emit(o: Output, w: Numbered): Output {
    if Combined(w) in o.names then o
    else if !w.probe.kind.UProbe? then o.(names := o.names + {Combined(w)})
    else Output(o.names + {Combined(w)}, o.programs + [w], if IsManual(w.func) then o.manual + [w] else o.manual)
  }

  function Outputs(ws: seq<Numbered>): Output {
    if |ws| == 0 then Output({}, [], []) else Emit(Outputs(ws[..|ws| - 1]), ws[|ws| - 1])
  }

  predicate MentionsFork(name: string) {
    |name| >= 4 && (name[..4] == "fork" || MentionsFork(name[1..]))
  }

  function IdText(w: Numbered): string { Print(w.id, 10) }

  function ProgramOf(w: Numbered): Program {
    var name := NameOf(w.func);
    Program(w.id, EntryName(name, IdText(w)), ExitName(name, IdText(w)), MentionsFork(name))
  }

  function ManualOf(w: Numbered): ManualFunction { ManualFunction(w.probe.binary, IdText(w)) }

  function ProgramsOf(ws: seq<Numbered>): seq<Program> {
    seq(|ws|, k requires 0 <= k < |ws| => ProgramOf(ws[k]))
  }

  function ManualsOf(ws: seq<Numbered>): seq<ManualFunction> {
    seq(|ws|, k requires 0 <= k < |ws| => ManualOf(ws[k]))
  }

  // ---------- The generator ----------

  class Generator {
    var eventIdCounter: nat
    var categoryMap: map<nat, Category>
    var globalFunctionNames: set<string>
    var programs: seq<Program>
    var manual: seq<ManualFunction>

    /** The state after the functions `ws` have been processed. */
    ghost predicate After(ws: seq<Numbered>)
      reads this
    {
      var o := Outputs(ws);
      && categoryMap == Categories(ws) && globalFunctionNames == o.names
      && programs == ProgramsOf(o.programs) && manual == ManualsOf(o.manual)
    }

    constructor ()
      ensures After([]) && eventIdCounter == FIRST_ID
    {
      eventIdCounter, categoryMap := FIRST_ID, PREDEFINED;
      globalFunctionNames, programs, manual := {}, [], [];
    }

    /** One function of a probe. */
    method DoFunction(probe: Probe, index: nat, ghost ws: seq<Numbered>) returns (ghost w: Numbered)
      requires index < |probe.functions| && After(ws)
      modifies this
      ensures After(ws + [w])
      ensures w == Numbered(if probe.kind.Custom? then probe.startId + index else old(eventIdCounter), probe, probe.functions[index])
      ensures eventIdCounter == old(eventIdCounter) + if probe.kind.Custom? then 0 else 1
    {
      var func := probe.functions[index];
      var id := probe.startId + index;
      if !probe.kind.Custom? {
        id := eventIdCounter;
        eventIdCounter := eventIdCounter + 1;
      }
      w := Numbered(id, probe, func);
      OneMore(ws, w);
      categoryMap := categoryMap[id := Category(probe.name, func)];
      Generate(id, probe, func, Outputs(ws));
    }

    /** Generates code for a function not seen before. */
    method Generate(id: nat, probe: Probe, func: string, ghost o: Output)
      requires globalFunctionNames == o.names && programs == ProgramsOf(o.programs) && manual == ManualsOf(o.manual)
      modifies this`globalFunctionNames, this`programs, this`manual
      ensures var o' := Emit(o, Numbered(id, probe, func));
              globalFunctionNames == o'.names && programs == ProgramsOf(o'.programs) && manual == ManualsOf(o'.manual)
    {
      var pos := Colon(func);
      var name, offset := func[..pos], if pos < |func| then func[pos + 1..] else "";
      var combined := match probe.kind
        case UProbe => probe.binary + "_" + name + "_" + offset
        case Usdt => probe.binary + "_" + probe.provider + "_" + func
        case _ => func;
      if combined in globalFunctionNames {
        return;
      }
      globalFunctionNames := globalFunctionNames + {combined};
      if probe.kind.UProbe? {
        if pos < |func| {
          manual := manual + [ManualFunction(probe.binary, Print(id, 10))];
        }
        GenerateUprobe(id, probe, func, name, o.programs);
      }
    }

    method GenerateUprobe(id: nat, probe: Probe, func: string, name: string, ghost before: seq<Numbered>)
      requires name == NameOf(func) && programs == ProgramsOf(before)
      modifies this`programs
      ensures programs == ProgramsOf(before + [Numbered(id, probe, func)])
    {
      var sanitized := Sanitize(name);
      var text := Print(id, 10);
      programs := programs + [Program(id, sanitized + text + "_entry", sanitized + text + "_exit", MentionsFork(name))];
    }

    /** All probes. */
    method Run(probes: seq<Probe>)
      requires After([]) && eventIdCounter == FIRST_ID
      modifies this
      ensures After(NumberAll(probes))
    {
      ghost var ws: seq<Numbered> := [];
      var i := 0;
      while i < |probes|
        invariant 0 <= i <= |probes| && ws == NumberAll(probes[..i]) && After(ws)
        invariant eventIdCounter == FIRST_ID + Counted(probes[..i])
      {
        assert probes[..i + 1][..i] == probes[..i];
        ws := DoProbe(probes[i], ws);
        i := i + 1;
      }
      assert probes[..i] == probes;
    }

    method DoProbe(probe: Probe, ghost ws: seq<Numbered>) returns (ghost after: seq<Numbered>)
      requires After(ws)
      modifies this
      ensures after == ws + NumberProbe(probe, old(eventIdCounter)) && After(after)
      ensures eventIdCounter == old(eventIdCounter) + if probe.kind.Custom? then 0 else |probe.functions|
    {
      after := ws;
      ghost var goal := ws + NumberProbe(probe, eventIdCounter);
      var j := 0;
      while j < |probe.functions|
        invariant 0 <= j <= |probe.functions| && after <= goal && |after| == |ws| + j && After(after)
        invariant eventIdCounter == old(eventIdCounter) + if probe.kind.Custom? then 0 else j
      {
        var w := DoFunction(probe, j, after);
        assert w == goal[|after|];
        after := after + [w];
        j := j + 1;
      }
      assert after == goal;
    }
  }

  lemma {:induction false} OneMore(ws: seq<Numbered>, w: Numbered)
    ensures Categories(ws + [w]) == Categories(ws)[w.id := Category(w.probe.name, w.func)]
    ensures Outputs(ws + [w]) == Emit(Outputs(ws), w)
  {
    assert (ws + [w])[..|ws|] == ws;
  }

  // ---------- Ids ----------

  predicate Counts(w: Numbered) { !w.probe.kind.Custom? }

  /** The counter's ids increase, and lie between `low` and `high`. */
  ghost predicate CountUp(ws: seq<Numbered>, low: nat, high: nat) {
    && (forall k | 0 <= k < |ws| && Counts(ws[k]) :: low <= ws[k].id < high)
    && (forall j, k | 0 <= j < k < |ws| :: InOrder(ws, j, k))
  }

  ghost predicate InOrder(ws: seq<Numbered>, j: nat, k: nat)
    requires j < k < |ws|
  {
    Counts(ws[j]) && Counts(ws[k]) ==> ws[j].id < ws[k].id
  }

  lemma {:induction false} CountUpJoined(x: seq<Numbered>, y: seq<Numbered>, low: nat, mid: nat, high: nat)
    requires CountUp(x, low, mid) && CountUp(y, mid, high) && low <= mid <= high
    ensures CountUp(x + y, low, high)
  {
    var ws := x + y;
    forall j, k | 0 <= j < k < |ws| ensures InOrder(ws, j, k) {
      if k < |x| {
        assert InOrder(x, j, k);
      } else if j >= |x| {
        assert InOrder(y, j - |x|, k - |x|);
      }
    }
  }

  lemma {:induction false} ProbeCountsUp(p: Probe, low: nat)
    ensures CountUp(NumberProbe(p, low), low, low + if p.kind.Custom? then 0 else |p.functions|)
  {
  }

  lemma {:induction false} IdsCountUp(probes: seq<Probe>)
    ensures CountUp(NumberAll(probes), FIRST_ID, FIRST_ID + Counted(probes))
  {
    if |probes| == 0 {
    } else {
      var init, last := probes[..|probes| - 1], probes[|probes| - 1];
      IdsCountUp(init);
      var mid, high := FIRST_ID + Counted(init), FIRST_ID + Counted(probes);
      ProbeCountsUp(last, mid);
      var before, more := NumberAll(init), NumberProbe(last, mid);
      CountUpJoined(before, more, FIRST_ID, mid, high);
      assert NumberAll(probes) == before + more;
    }
  }

  /** How many functions the probes have. */
  function Total(probes: seq<Probe>): nat {
    if |probes| == 0 then 0 else Total(probes[..|probes| - 1]) + |probes[|probes| - 1].functions|
  }

  /** The functions are numbered probe by probe, in their order: a custom probe's from its own start, all
      others from 1000 on. */
  lemma {:induction false} NumberAt(probes: seq<Probe>, i: nat, j: nat)
    requires i < |probes| && j < |probes[i].functions|
    ensures var p, k := probes[i], Total(probes[..i]) + j;
            && |NumberAll(probes)| == Total(probes) && k < Total(probes)
            && NumberAll(probes)[k]
               == Numbered(if p.kind.Custom? then p.startId + j else 1000 + Counted(probes[..i]) + j, p, p.functions[j])
  {
    var init := probes[..|probes| - 1];
    NumberAllLength(probes);
    NumberAllLength(init);
    if i < |init| {
      NumberAt(init, i, j);
      assert init[..i] == probes[..i];
    } else {
      assert init == probes[..i];
    }
  }

  lemma {:induction false} NumberAllLength(probes: seq<Probe>)
    ensures |NumberAll(probes)| == Total(probes)
  {
    if |probes| == 0 {
    } else {
      NumberAllLength(probes[..|probes| - 1]);
    }
  }

  /** How many of the functions are no custom probe's. */
  function CountedAmong(ws: seq<Numbered>): nat {
    if |ws| == 0 then 0
    else CountedAmong(ws[..|ws| - 1]) + if ws[|ws| - 1].probe.kind == Custom then 0 else 1
  }

  lemma {:induction false} CountedExact(probes: seq<Probe>)
    ensures Counted(probes) == CountedAmong(NumberAll(probes))
  {
    if |probes| == 0 {
    } else {
      var init, last := probes[..|probes| - 1], probes[|probes| - 1];
      CountedExact(init);
      CountedMore(NumberAll(init), last, FIRST_ID + Counted(init), |last.functions|);
    }
  }

  lemma {:induction false} CountedMore(ws: seq<Numbered>, p: Probe, counter: nat, n: nat)
    requires n <= |p.functions|
    ensures CountedAmong(ws + NumberProbe(p, counter)[..n]) == CountedAmong(ws) + if p.kind == Custom then 0 else n
    ensures NumberProbe(p, counter)[..|p.functions|] == NumberProbe(p, counter)
  {
    var all := ws + NumberProbe(p, counter)[..n];
    if n == 0 {
      assert all == ws;
    } else {
      CountedMore(ws, p, counter, n - 1);
      assert all[..|all| - 1] == ws + NumberProbe(p, counter)[..n - 1] && all[|all| - 1].probe == p;
    }
  }

  /** Counted functions with the same id are the same one. */
  lemma {:induction false} IdsDiffer(probes: seq<Probe>, j: nat, k: nat)
    requires j < |NumberAll(probes)| && k < |NumberAll(probes)|
    requires Counts(NumberAll(probes)[j]) && Counts(NumberAll(probes)[k])
    ensures NumberAll(probes)[j].id == NumberAll(probes)[k].id <==> j == k
  {
    var ws := NumberAll(probes);
    IdsCountUp(probes);
    if j < k {
      assert InOrder(ws, j, k);
    } else if k < j {
      assert InOrder(ws, k, j);
    }
  }

  /** No custom probe's range of ids overlaps the counter's. */
  ghost predicate CustomIdsApart(probes: seq<Probe>) {
    forall p | p in probes && p.kind.Custom? ::
      p.startId + |p.functions| <= FIRST_ID || FIRST_ID + Counted(probes) <= p.startId
  }

  lemma {:induction false} NumberedFrom(probes: seq<Probe>, k: nat)
    requires k < |NumberAll(probes)|
    ensures var w := NumberAll(probes)[k];
            w.probe in probes && (!Counts(w) ==> w.probe.startId <= w.id < w.probe.startId + |w.probe.functions|)
  {
    var init, last := probes[..|probes| - 1], probes[|probes| - 1];
    if k < |NumberAll(init)| {
      NumberedFrom(init, k);
      assert NumberAll(probes)[k] == NumberAll(init)[k];
    } else {
      var j := k - |NumberAll(init)|;
      assert NumberAll(probes)[k] == NumberProbe(last, FIRST_ID + Counted(init))[j];
    }
  }

  // ---------- The category map ----------

  /** The number of the last function with the id. */
  function LastWith(ws: seq<Numbered>, id: nat): Option<nat> {
    if |ws| == 0 then None
    else if ws[|ws| - 1].id == id then Some(|ws| - 1)
    else LastWith(ws[..|ws| - 1], id)
  }

  lemma {:induction false} LastWithExact(ws: seq<Numbered>, id: nat)
    ensures match LastWith(ws, id)
            case None => forall k | 0 <= k < |ws| :: ws[k].id != id
            case Some(k) => k < |ws| && ws[k].id == id && forall j | k < j < |ws| :: ws[j].id != id
    ensures match LastWith(ws, id)
            case None => id in Categories(ws) <==> id in PREDEFINED
            case Some(k) => id in Categories(ws) && Categories(ws)[id] == Category(ws[k].probe.name, ws[k].func)
  {
    if |ws| > 0 && ws[|ws| - 1].id != id {
      LastWithExact(ws[..|ws| - 1], id);
    }
  }

  /** A numbered function keeps its place in the category map exactly when the last function with its id
      has the same names. */
  lemma {:induction false} KeptExactly(ws: seq<Numbered>, k: nat)
    requires k < |ws|
    ensures var last := LastWith(ws, ws[k].id);
            && last.Some? && k <= last.value < |ws| && ws[k].id in Categories(ws)
            && (Categories(ws)[ws[k].id] == Category(ws[k].probe.name, ws[k].func)
                <==> ws[last.value].probe.name == ws[k].probe.name && ws[last.value].func == ws[k].func)
  {
    LastWithExact(ws, ws[k].id);
  }

  lemma {:induction false} LastIsItself(probes: seq<Probe>, k: nat)
    requires CustomIdsApart(probes) && k < |NumberAll(probes)| && Counts(NumberAll(probes)[k])
    ensures LastWith(NumberAll(probes), NumberAll(probes)[k].id) == Some(k)
  {
    var ws := NumberAll(probes);
    LastWithExact(ws, ws[k].id);
    var last := LastWith(ws, ws[k].id).value;
    NumberedFrom(probes, last);
    IdsCountUp(probes);
    if Counts(ws[last]) {
      IdsDiffer(probes, last, k);
    }
  }

  /** With the custom ids apart every counted function keeps its place. */
  lemma {:induction false} KeptWhenApart(probes: seq<Probe>, k: nat)
    requires CustomIdsApart(probes) && k < |NumberAll(probes)| && Counts(NumberAll(probes)[k])
    ensures var ws := NumberAll(probes);
            ws[k].id in Categories(ws) && Categories(ws)[ws[k].id] == Category(ws[k].probe.name, ws[k].func)
  {
    var ws := NumberAll(probes);
    KeptExactly(ws, k);
    LastIsItself(probes, k);
  }

  /** The ids before 1000 keep what the map holds before the first probe, unless a custom probe takes
      them. */
  lemma {:induction false} PredefinedKept(ws: seq<Numbered>)
    requires forall k | 0 <= k < |ws| :: ws[k].id > 2
    ensures var c := Categories(ws);
            && 0 in c && c[0] == Category("M", "SH")
            && 1 in c && c[1] == Category("DC", "start") && 2 in c && c[2] == Category("DC", "end")
  {
    if |ws| == 0 {
    } else {
      PredefinedKept(ws[..|ws| - 1]);
    }
  }

  // ---------- What is generated ----------

  /** Under which name a function counts: with binary, name and address for a uprobe, with binary and
      provider for a USDT probe, and alone for the others. */
  lemma {:induction false} CombinedExact(id: nat, p: Probe, name: string, offset: string)
    requires !HasColon(name)
    ensures p.kind.UProbe? ==> Combined(Numbered(id, p, name + ":" + offset)) == p.binary + "_" + name + "_" + offset
    ensures p.kind.UProbe? ==> Combined(Numbered(id, p, name)) == p.binary + "_" + name + "_"
    ensures p.kind.Usdt? ==> Combined(Numbered(id, p, name)) == p.binary + "_" + p.provider + "_" + name
    ensures p.kind.Syscalls? || p.kind.KProbe? || p.kind.Custom? ==> Combined(Numbered(id, p, name)) == name
  {
    SplitJoined(name, offset);
    ColonExact(name);
    assert name[..|name|] == name;
  }

  lemma {:induction false} NamesExact(ws: seq<Numbered>, name: string)
    ensures name in Outputs(ws).names <==> exists j :: 0 <= j < |ws| && Combined(ws[j]) == name
  {
    if |ws| == 0 {
    } else {
      NamesExact(ws[..|ws| - 1], name);
      assert forall j | 0 <= j < |ws| - 1 :: ws[..|ws| - 1][j] == ws[j];
    }
  }

  /** No function before number `k` counts under the same name. */
  predicate FirstOfName(ws: seq<Numbered>, k: nat)
    requires k < |ws|
  {
    forall j | 0 <= j < k :: Combined(ws[j]) != Combined(ws[k])
  }

  ghost predicate FirstUprobe(ws: seq<Numbered>, k: nat, w: Numbered)
    requires k < |ws|
  {
    ws[k] == w && w.probe.kind.UProbe? && FirstOfName(ws, k)
  }

  lemma {:induction false} FirstKept(ws: seq<Numbered>, last: Numbered, k: nat, w: Numbered)
    requires k < |ws|
    ensures FirstUprobe(ws + [last], k, w) <==> FirstUprobe(ws, k, w)
  {
    var all := ws + [last];
    assert all[k] == ws[k] && forall j | 0 <= j < k :: all[j] == ws[j];
  }

  /** Code is generated for exactly the first uprobe function of every name. */
  lemma {:induction false} GeneratedExactly(ws: seq<Numbered>, w: Numbered)
    ensures w in Outputs(ws).programs <==> exists k :: 0 <= k < |ws| && FirstUprobe(ws, k, w)
    ensures w in Outputs(ws).manual <==> w in Outputs(ws).programs && IsManual(w.func)
  {
    if |ws| == 0 {
    } else {
      var init, last := ws[..|ws| - 1], ws[|ws| - 1];
      assert ws == init + [last];
      GeneratedExactly(init, w);
      NamesExact(init, Combined(last));
      assert Combined(last) in Outputs(init).names <==> !FirstOfName(ws, |init|) by {
        assert forall j | 0 <= j < |init| :: ws[j] == init[j];
      }
      LastGenerated(init, last, w);
    }
  }

  lemma {:induction false} LastGenerated(init: seq<Numbered>, last: Numbered, w: Numbered)
    ensures (exists k :: 0 <= k < |init + [last]| && FirstUprobe(init + [last], k, w))
            <==> (exists k :: 0 <= k < |init| && FirstUprobe(init, k, w)) || FirstUprobe(init + [last], |init|, w)
  {
    var ws := init + [last];
    forall k | 0 <= k < |init| ensures FirstUprobe(ws, k, w) <==> FirstUprobe(init, k, w) {
      FirstKept(init, last, k, w);
    }
    if k :| 0 <= k < |init| && FirstUprobe(init, k, w) {
      assert FirstUprobe(ws, k, w);
    }
  }

  /** Function number `k` gets a program if and only if it is a uprobe's and no earlier function counts
      under its name; it is then left to be attached by hand if and only if it has a colon. */
  lemma {:induction false} GeneratedNumber(probes: seq<Probe>, k: nat)
    requires k < |NumberAll(probes)| && Counts(NumberAll(probes)[k])
    ensures var ws := NumberAll(probes);
            && (ws[k] in Outputs(ws).programs <==> ws[k].probe.kind.UProbe? && FirstOfName(ws, k))
            && (ws[k] in Outputs(ws).manual <==> ws[k].probe.kind.UProbe? && FirstOfName(ws, k) && IsManual(ws[k].func))
  {
    var ws := NumberAll(probes);
    IdsCountUp(probes);
    GeneratedExactly(ws, ws[k]);
    if j :| 0 <= j < |ws| && FirstUprobe(ws, j, ws[k]) {
      IdsDiffer(probes, j, k);
    }
    assert FirstUprobe(ws, k, ws[k]) <==> ws[k].probe.kind.UProbe? && FirstOfName(ws, k);
  }

  /** What was generated comes from a numbered function. */
  lemma {:induction false} GeneratedFrom(ws: seq<Numbered>, w: Numbered)
    requires w in Outputs(ws).programs
    ensures w in ws && w.probe.kind.UProbe?
  {
    GeneratedExactly(ws, w);
    var k :| 0 <= k < |ws| && FirstUprobe(ws, k, w);
    assert ws[k] in ws;
  }

  function CoincidingProbes(): seq<Probe> {
    [Probe(UProbe, "a", "x", "", ["y_z:0x10"], 0), Probe(UProbe, "b", "x_y", "", ["z:0x10"], 0)]
  }

  /** Different functions of different binaries can count under the same name: the second of these two
      gets no program and is not left to be attached by hand either. */
  lemma {:induction false} DifferentFunctionDropped()
    ensures var probes := CoincidingProbes();
            var ws := NumberAll(probes);
            && CustomIdsApart(probes) && |ws| == 2 && ws[1] == Numbered(1001, probes[1], "z:0x10")
            && !FirstOfName(ws, 1) && ws[1] !in Outputs(ws).programs && ws[1] !in Outputs(ws).manual
  {
    var probes := CoincidingProbes();
    NumberTwo(probes[0], probes[1]);
    assert Colon("y_z:0x10") == 3 && Colon("z:0x10") == 1;
    assert "y_z:0x10"[..3] == "y_z" && "y_z:0x10"[4..] == "0x10" && "z:0x10"[..1] == "z" && "z:0x10"[2..] == "0x10";
    assert "x" + "_" + "y_z" + "_" + "0x10" == "x_y" + "_" + "z" + "_" + "0x10";
    GeneratedNumber(probes, 1);
  }

  lemma {:induction false} NumberTwo(p: Probe, q: Probe)
    requires |p.functions| == 1 && |q.functions| == 1 && !p.kind.Custom?
    ensures NumberAll([p, q])
         == [Numbered(FIRST_ID, p, p.functions[0]), Numbered(IdOf(q, FIRST_ID + 1, 0), q, q.functions[0])]
    ensures Counted([p, q]) == if q.kind.Custom? then 1 else 2
  {
    assert [p, q][..1] == [p] && [p][..0] == [];
    assert NumberAll([]) == [] && Counted([]) == 0;
    assert NumberAll([p]) == [] + NumberProbe(p, FIRST_ID);
  }

  // ---------- Program names ----------

  /** What the programs of a function with a short and plain name are called, and that its exit enrols
      the child exactly when the name mentions a fork. */
  lemma {:induction false} PlainProgram(w: Numbered, name: string, offset: string)
    requires w.func == name + ":" + offset || w.func == name
    requires |name| <= 10 && forall k | 0 <= k < |name| :: name[k] != ':' && name[k] != '.' && name[k] != '@'
    ensures ProgramOf(w).id == w.id
    ensures ProgramOf(w).entry == name + Print(w.id, 10) + "_entry"
    ensures ProgramOf(w).exit == name + Print(w.id, 10) + "_exit"
    ensures ProgramOf(w).forks <==> exists x, y :: name == x + "fork" + y
  {
    PlainName(name);
    SplitJoined(name, offset);
    ForksExact(name);
  }

  lemma {:induction false} ForksExact(name: string)
    ensures MentionsFork(name) <==> exists x, y :: name == x + "fork" + y
  {
    if x, y :| name == x + "fork" + y {
      ForkMentioned(x, y);
    }
    if MentionsFork(name) {
      var x, y := ForkFound(name);
    }
  }

  lemma {:induction false} ForkMentioned(x: string, y: string)
    ensures MentionsFork(x + "fork" + y)
  {
    var name := x + "fork" + y;
    if |x| == 0 {
      assert name[..4] == "fork";
    } else {
      ForkMentioned(x[1..], y);
      assert name[1..] == x[1..] + "fork" + y;
    }
  }

  lemma {:induction false} ForkFound(name: string) returns (x: string, y: string)
    requires MentionsFork(name)
    ensures name == x + "fork" + y
  {
    if name[..4] == "fork" {
      x, y := "", name[4..];
      assert name == name[..4] + name[4..];
    } else {
      x, y := ForkFound(name[1..]);
      assert name == [name[0]] + name[1..] == [name[0]] + x + "fork" + y;
      x := [name[0]] + x;
    }
  }

  lemma {:induction false} SameTail(x: string, y: string, tail: string)
    ensures x + tail == y + tail <==> x == y
  {
    if x + tail == y + tail {
      assert |x| == |y| && (x + tail)[..|x|] == x && (y + tail)[..|y|] == y;
    }
  }

  /** A name followed by an id is another name followed by a longer id exactly when the first name is the
      other with the additional digits, and the first id the other without them. */
  lemma {:induction false} SameJoined(x: string, i: string, y: string, j: string)
    requires |i| <= |j|
    ensures x + i == y + j <==> x == y + j[..|j| - |i|] && i == j[|j| - |i|..]
  {
    var d := |j| - |i|;
    assert j == j[..d] + j[d..];
    if x + i == y + j {
      assert |x| == |y| + d;
      assert x == (x + i)[..|x|] && i == (x + i)[|x|..];
      assert (y + j)[..|y| + d] == y + j[..d] && (y + j)[|y| + d..] == j[d..];
    }
    if x == y + j[..d] && i == j[d..] {
      assert x + i == y + (j[..d] + j[d..]);
    }
  }

  /** Two programs have the same name if and only if the additional digits of the longer id end the
      other's shortened name and the rest of it is the shorter id. */
  lemma {:induction false} SameNameExactly(a: Numbered, b: Numbered)
    requires |IdText(a)| <= |IdText(b)|
    ensures var x, y := Sanitized(NameOf(a.func)), Sanitized(NameOf(b.func));
            var i, j := IdText(a), IdText(b);
            var d := |j| - |i|;
            ProgramOf(a).entry == ProgramOf(b).entry <==> x == y + j[..d] && i == j[d..]
  {
    var x, y := Sanitized(NameOf(a.func)), Sanitized(NameOf(b.func));
    SameTail(x + IdText(a), y + IdText(b), "_entry");
    SameJoined(x, IdText(a), y, IdText(b));
  }

  /** So programs whose ids have equally many digits have different names. */
  lemma {:induction false} ProgramNamesDiffer(a: Numbered, b: Numbered)
    requires |IdText(a)| == |IdText(b)|
    ensures ProgramOf(a).entry == ProgramOf(b).entry ==> a.id == b.id
  {
    SameNameExactly(a, b);
    PrintInjective(a.id, b.id, 10);
  }

  lemma {:induction false} FourDigits(n: nat)
    requires 1000 <= n < 10000
    ensures |Print(n, 10)| == 4
  {
    assert |Print(n / 10 / 10 / 10, 10)| == 1;
    assert |Print(n / 10 / 10, 10)| == 2;
    assert |Print(n / 10, 10)| == 3;
  }

  /** The next thousand ids have a zero behind their first digit. */
  lemma {:induction false} FiveDigits(n: nat)
    requires 10000 <= n < 11000
    ensures |Print(n, 10)| == 5 && Print(n, 10)[1] == '0'
  {
    PrintDigit(1, 0);
    ZeroKept(10, n / 100);
    ZeroKept(n / 100, n / 10);
    ZeroKept(n / 10, n);
  }

  lemma {:induction false} ZeroKept(m: nat, n: nat)
    requires 0 < m == n / 10 && |Print(m, 10)| > 1 && Print(m, 10)[1] == '0'
    ensures |Print(n, 10)| == |Print(m, 10)| + 1 && Print(n, 10)[1] == '0'
  {
    PrintDigit(m, n % 10);
  }

  /** No id with four digits ends one of those, so that their programs too have different names. */
  lemma {:induction false} LongerIdDiffers(a: Numbered, b: Numbered)
    requires 1000 <= a.id < 10000 <= b.id < 11000
    ensures ProgramOf(a).entry != ProgramOf(b).entry
  {
    FourDigits(a.id);
    FiveDigits(b.id);
    NumberOfPrint(a.id, 10);
    SameNameExactly(a, b);
    assert IdText(b)[1..][0] == '0';
  }

  /** With at most 10000 counted functions no two programs have the same name. */
  lemma {:induction false} FewProgramsDiffer(probes: seq<Probe>, j: nat, k: nat)
    requires Counted(probes) <= 10000 && j < k < |NumberAll(probes)|
    requires Counts(NumberAll(probes)[j]) && Counts(NumberAll(probes)[k])
    ensures ProgramOf(NumberAll(probes)[j]).entry != ProgramOf(NumberAll(probes)[k]).entry
  {
    var ws := NumberAll(probes);
    IdsCountUp(probes);
    IdsDiffer(probes, j, k);
    assert InOrder(ws, j, k);
    if ws[j].id < 10000 <= ws[k].id {
      LongerIdDiffers(ws[j], ws[k]);
    } else {
      SameLength(ws[j].id, ws[k].id);
      ProgramNamesDiffer(ws[j], ws[k]);
    }
  }

  lemma {:induction false} SameLength(m: nat, n: nat)
    requires 1000 <= m < n < 10000 || 10000 <= m < n < 11000
    ensures |Print(m, 10)| == |Print(n, 10)|
  {
    if n < 10000 {
      FourDigits(m);
      FourDigits(n);
    } else {
      FiveDigits(m);
      FiveDigits(n);
    }
  }

  lemma {:induction false} PrintDigit(n: nat, d: nat)
    requires n > 0 && d < 10
    ensures Print(10 * n + d, 10) == Print(n, 10) + [DigitChar(d)]
  {
  }

  lemma {:induction false} PrintThousands()
    ensures Print(1000, 10) == "1000" && Print(11000, 10) == "11000"
  {
    PrintDigit(1, 0);
    PrintDigit(10, 0);
    PrintDigit(100, 0);
    PrintDigit(1, 1);
    PrintDigit(11, 0);
    PrintDigit(110, 0);
    PrintDigit(1100, 0);
  }

  function LargeName(k: nat): string { if k == 0 then "f1" else if k == 10000 then "f" else "g" }

  /** A uprobe with 10001 functions, `f1` the first and `f` the last. */
  function LargeProbe(): Probe {
    Probe(UProbe, "u", "lib", "", seq(10001, k requires 0 <= k < 10001 => LargeName(k)), 0)
  }

  /** With one more they can: the programs generated for the first and the last function of this probe have
      the same name. */
  lemma {:induction false} ProgramNamesCanCollide()
    ensures var ws := NumberAll([LargeProbe()]);
            && |ws| == 10001 && ws[0].id != ws[10000].id
            && ws[0] in Outputs(ws).programs && ws[10000] in Outputs(ws).programs
            && ProgramOf(ws[0]).entry == ProgramOf(ws[10000]).entry
  {
    LargeNumber(0);
    LargeNumber(10000);
    LargeGenerated(0);
    LargeGenerated(10000);
    SameEntry(NumberAll([LargeProbe()])[0], NumberAll([LargeProbe()])[10000]);
  }

  lemma {:induction false} SameEntry(a: Numbered, b: Numbered)
    requires a.id == 1000 && a.func == "f1" && b.id == 11000 && b.func == "f"
    ensures ProgramOf(a).entry == ProgramOf(b).entry
  {
    PrintThousands();
    PlainName("f1");
    PlainName("f");
    assert "f1" + "1000" == "f" + "11000";
  }

  lemma {:induction false} LargeNumber(k: nat)
    requires k < 10001
    ensures |NumberAll([LargeProbe()])| == 10001
    ensures NumberAll([LargeProbe()])[k] == Numbered(1000 + k, LargeProbe(), LargeName(k))
  {
    var p := LargeProbe();
    assert [p][..0] == [] && NumberAll([]) == [];
    assert NumberAll([p]) == [] + NumberProbe(p, FIRST_ID);
  }

  lemma {:induction false} LargeCombined(k: nat)
    requires k < 10001
    ensures |NumberAll([LargeProbe()])| == 10001
    ensures Combined(NumberAll([LargeProbe()])[k]) == "lib_" + LargeName(k) + "_"
  {
    LargeNumber(k);
    PlainName(LargeName(k));
  }

  lemma {:induction false} LargeGenerated(k: nat)
    requires k == 0 || k == 10000
    ensures |NumberAll([LargeProbe()])| == 10001
    ensures NumberAll([LargeProbe()])[k] in Outputs(NumberAll([LargeProbe()])).programs
  {
    var ws := NumberAll([LargeProbe()]);
    LargeNumber(k);
    forall j | 0 <= j < k ensures Combined(ws[j]) != Combined(ws[k]) {
      LargeCombined(j);
      LargeCombined(k);
      SameTail("lib_" + LargeName(j), "lib_" + LargeName(k), "_");
      SameJoined("lib_", LargeName(k), "lib_", LargeName(j));
    }
    GeneratedNumber([LargeProbe()], k);
  }

  /** A short name without separators is its own name. */
  lemma {:induction false} PlainName(name: string)
    requires |name| <= 10 && forall k | 0 <= k < |name| :: name[k] != ':' && name[k] != '.' && name[k] != '@'
    ensures NameOf(name) == name && Sanitized(name) == name && OffsetOf(name) == ""
  {
    ColonExact(name);
    assert !HasColon(name) && name[..|name|] == name;
  }
}
