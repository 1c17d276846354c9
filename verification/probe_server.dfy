/** The server's way back from an event id to a program and an offset
    (src/datacrumbs/server/process/server.impl.cpp). */
module ProbeServer {
  import opened Common
  import opened NumberText
  import opened ProbeNames
  import opened ProbeGenerator

  datatype Attempt = Attach(entry: string, exit: string, offset: nat) | Fail | Throw

  /** What the server does for one manual function: it looks the id up, splits the name again and builds
      the program's name from it. */
  function Rebuild(categories: map<nat, Category>, entries: set<string>, id: string): Attempt {
    match Parse(id)
    case None => Throw
    case Some(n) =>
      var func := if n in categories then categories[n].func else "";
      var name, offset := NameOf(func), OffsetOf(func);
      if !IsManual(func) || offset == "" || EntryName(name, id) !in entries then Fail
      else match Parse(offset)
        case None => Throw
        case Some(v) => Attach(EntryName(name, id), ExitName(name, id), v)
  }

  function Entries(programs: seq<Numbered>): set<string> {
    set w | w in programs :: ProgramOf(w).entry
  }

  /** One manual function at the server: the same steps on strings. */
  method RebuildOne(categories: map<nat, Category>, entries: set<string>, id: string) returns (a: Attempt)
    ensures a == Rebuild(categories, entries, id)
  {
    var hash := Parse(id);
    if hash.None? {
      return Throw;
    }
    var name := if hash.value in categories then categories[hash.value].func else "";
    var pos, offset := Colon(name), "";
    if pos == |name| {
      return Fail;
    }
    offset := name[pos + 1..];
    name := name[..pos];
    var sanitized := Sanitize(name);
    sanitized := sanitized + id;
    if offset == "" || sanitized + "_entry" !in entries {
      return Fail;
    }
    var value := Parse(offset);
    if value.None? {
      return Throw;
    }
    return Attach(sanitized + "_entry", sanitized + "_exit", value.value);
  }

  function Server(categories: map<nat, Category>, entries: set<string>): string -> Attempt {
    id => Rebuild(categories, entries, id)
  }

  /** What the server makes of the ids of the first `n` manual functions. */
  function Rebuilt(manual: seq<ManualFunction>, server: string -> Attempt, n: nat): (r: seq<Attempt>)
    requires n <= |manual|
    ensures |r| == n
  {
    if n == 0 then [] else Rebuilt(manual, server, n - 1) + [server(manual[n - 1].id)]
  }

  /** The kernel's answers to the two attachments of a program. */
  datatype Links = Links(entry: bool, exit: bool)

  datatype Totals = Totals(probes: nat, successful: nat, failed: nat)

  /** How many probes of a function are linked: none unless it is rebuilt and its entry links. */
  function LinkedOf(a: Attempt, links: Links): nat {
    if !a.Attach? || !links.entry then 0 else if links.exit then 2 else 1
  }

  /** How many probes of the first `n` functions are linked. */
  function Linked(attempts: seq<Attempt>, links: seq<Links>, n: nat): nat
    requires n <= |attempts| == |links|
  {
    if n == 0 then 0 else Linked(attempts, links, n - 1) + LinkedOf(attempts[n - 1], links[n - 1])
  }

  /** The two probes of one function. */
  method CountLinks(a: Attempt, links: Links, before: Totals) returns (totals: Totals)
    ensures totals.probes == before.probes
    ensures totals.successful == before.successful + LinkedOf(a, links)
    ensures totals.failed == before.failed + 2 - LinkedOf(a, links)
  {
    totals := before;
    if a.Attach? && links.entry {
      totals := totals.(successful := totals.successful + 1);
      if links.exit {
        totals := totals.(successful := totals.successful + 1);
      } else {
        totals := totals.(failed := totals.failed + 1);
      }
    } else {
      totals := totals.(failed := totals.failed + 2);
    }
  }

  /** All manual functions.  Unless a number does not parse, every function is attempted as Rebuild says
      and of its two probes those linked are counted as successful and the others as failed. */
  method ManualProbes(manual: seq<ManualFunction>, categories: map<nat, Category>, entries: set<string>, links: seq<Links>)
      returns (attempts: seq<Attempt>, totals: Totals, threw: bool)
    requires |links| == |manual|
    ensures threw <==> Throw in Rebuilt(manual, Server(categories, entries), |manual|)
    ensures !threw ==>
              && attempts == Rebuilt(manual, Server(categories, entries), |manual|)
              && totals.probes == totals.successful + totals.failed == 2 * |manual|
              && totals.successful == |EntriesMade(attempts, links, |manual|)| + |ExitsMade(attempts, links, |manual|)|
  {
    attempts, totals, threw := [], Totals(0, 0, 0), false;
    ghost var server := Server(categories, entries);
    var i := 0;
    while i < |manual|
      invariant 0 <= i <= |manual| && attempts == Rebuilt(manual, server, i)
      invariant forall k | 0 <= k < i :: attempts[k] != Throw
      invariant totals.probes == totals.successful + totals.failed == 2 * i
      invariant totals.successful == Linked(attempts, links[..i], i)
    {
      totals := totals.(probes := totals.probes + 2);
      var a := RebuildOne(categories, entries, manual[i].id);
      if a.Throw? {
        assert Rebuilt(manual, server, i + 1)[i] == a;
        RebuiltGrows(manual, server, i + 1, |manual|);
        return attempts, totals, true;
      }
      totals := CountLinks(a, links[i], totals);
      LinkedMore(attempts, links, a, i);
      attempts := attempts + [a];
      i := i + 1;
    }
    assert links[..i] == links;
    LinkedExact(attempts, links, i);
  }

  lemma {:induction false} RebuiltGrows(manual: seq<ManualFunction>, server: string -> Attempt, i: nat, n: nat)
    requires i <= n <= |manual|
    ensures Rebuilt(manual, server, i) <= Rebuilt(manual, server, n)
  {
    if i < n {
      RebuiltGrows(manual, server, i, n - 1);
    }
  }

  /** The functions among the first `n` whose entry is linked, and those whose exit is linked behind it. */
  function EntriesMade(attempts: seq<Attempt>, links: seq<Links>, n: nat): set<nat>
    requires n <= |attempts| == |links|
  {
    set k: nat | k < n && attempts[k].Attach? && links[k].entry
  }

  function ExitsMade(attempts: seq<Attempt>, links: seq<Links>, n: nat): set<nat>
    requires n <= |attempts| == |links|
  {
    set k: nat | k < n && attempts[k].Attach? && links[k].entry && links[k].exit
  }

  lemma {:induction false} OneMoreMade(attempts: seq<Attempt>, links: seq<Links>, n: nat)
    requires n < |attempts| == |links|
    ensures var made := attempts[n].Attach? && links[n].entry;
            && EntriesMade(attempts, links, n + 1) == EntriesMade(attempts, links, n) + (if made then {n} else {})
            && ExitsMade(attempts, links, n + 1)
               == ExitsMade(attempts, links, n) + (if made && links[n].exit then {n} else {})
  {
  }

  /** Counted as successful are just these links. */
  lemma {:induction false} LinkedExact(attempts: seq<Attempt>, links: seq<Links>, n: nat)
    requires n <= |attempts| == |links|
    ensures Linked(attempts, links, n) == |EntriesMade(attempts, links, n)| + |ExitsMade(attempts, links, n)|
  {
    if n == 0 {
    } else {
      LinkedExact(attempts, links, n - 1);
      OneMoreMade(attempts, links, n - 1);
    }
  }

  lemma {:induction false} LinkedMore(attempts: seq<Attempt>, links: seq<Links>, a: Attempt, i: nat)
    requires |attempts| == i < |links|
    ensures Linked(attempts + [a], links[..i + 1], i + 1) == Linked(attempts, links[..i], i) + LinkedOf(a, links[i])
  {
    LinkedStart(attempts + [a], attempts, links[..i + 1], links[..i], i);
  }

  lemma {:induction false} LinkedStart(x: seq<Attempt>, y: seq<Attempt>, xs: seq<Links>, ys: seq<Links>, n: nat)
    requires n <= |y| == |ys| <= |x| == |xs| && y <= x && ys <= xs
    ensures Linked(x, xs, n) == Linked(y, ys, n)
  {
    if n == 0 {
    } else {
      LinkedStart(x, y, xs, ys, n - 1);
    }
  }

  // ---------- What the server rebuilds ----------

  lemma {:induction false} KeptInText(ws: seq<Numbered>, w: Numbered)
    ensures w in ws ==> ManualOf(w) in ManualsOf(ws) && ProgramOf(w) in ProgramsOf(ws)
  {
    if w in ws {
      var k :| 0 <= k < |ws| && ws[k] == w;
      assert ManualsOf(ws)[k] == ManualOf(w) && ProgramsOf(ws)[k] == ProgramOf(w);
    }
  }

  /** Read again from the function `func`, the id gives the name of `w`'s program and the offset `v`. */
  predicate Rereads(func: string, w: Numbered, v: nat) {
    IsManual(func) && Sanitized(NameOf(func)) == Sanitized(NameOf(w.func)) && Parse(OffsetOf(func)) == Some(v)
  }

  /** The server attaches the program generated for `w` at offset `v` if and only if the last function
      numbered with `w`'s id has a colon, the same shortened name and that offset. */
  lemma {:induction false} RebuildExactly(ws: seq<Numbered>, w: Numbered, v: nat)
    requires w in Outputs(ws).programs && 0 < w.id < LIMIT
    ensures var last := LastWith(ws, w.id);
            && last.Some? && last.value < |ws|
            && (Rebuild(Categories(ws), Entries(Outputs(ws).programs), IdText(w))
                == Attach(ProgramOf(w).entry, ProgramOf(w).exit, v)
                <==> Rereads(ws[last.value].func, w, v))
  {
    GeneratedFrom(ws, w);
    LastWithExact(ws, w.id);
    ParseDecimal(w.id);
    var func := ws[LastWith(ws, w.id).value].func;
    var x, y := Sanitized(NameOf(func)), Sanitized(NameOf(w.func));
    SameTail(x + IdText(w), y + IdText(w), "_entry");
    SameTail(x, y, IdText(w));
    assert ProgramOf(w).entry in Entries(Outputs(ws).programs);
    assert Parse("") == None;
  }

  /** It gives up on all manual functions if and only if that function has a colon, the same shortened
      name, and behind the colon something, but no number below 2^64. */
  lemma {:induction false} ThrowsExactly(ws: seq<Numbered>, w: Numbered)
    requires w in Outputs(ws).programs && 0 < w.id < LIMIT
    ensures var last := LastWith(ws, w.id);
            && last.Some? && last.value < |ws|
            && var func := ws[last.value].func;
               Rebuild(Categories(ws), Entries(Outputs(ws).programs), IdText(w)) == Throw
               <==> Known(ws, func, w) && OffsetOf(func) != "" && Parse(OffsetOf(func)) == None
  {
    GeneratedFrom(ws, w);
    LastWithExact(ws, w.id);
    ParseDecimal(w.id);
  }

  /** There is a program of the name the function and the id give. */
  predicate Known(ws: seq<Numbered>, func: string, w: Numbered) {
    IsManual(func) && EntryName(NameOf(func), IdText(w)) in Entries(Outputs(ws).programs)
  }

  /** With the custom ids apart the last function with `w`'s id is `w`: its program is attached at the
      offset its listing ends in, and at no other. */
  lemma {:induction false} RebuildsProgram(probes: seq<Probe>, k: nat, v: nat)
    requires CustomIdsApart(probes) && FIRST_ID + Counted(probes) <= LIMIT
    requires k < |NumberAll(probes)| && NumberAll(probes)[k].probe.kind.UProbe? && IsManual(NumberAll(probes)[k].func)
    ensures var ws := NumberAll(probes);
            var w, o := ws[k], Outputs(ws);
            (ManualOf(w) in ManualsOf(o.manual)
             && Rebuild(Categories(ws), Entries(o.programs), ManualOf(w).id) == Attach(ProgramOf(w).entry, ProgramOf(w).exit, v))
            <==> FirstOfName(ws, k) && Parse(OffsetOf(w.func)) == Some(v)
  {
    var ws := NumberAll(probes);
    GeneratedNumber(probes, k);
    ManualNumber(probes, k);
    IdsCountUp(probes);
    if FirstOfName(ws, k) {
      RebuildExactly(ws, ws[k], v);
      LastIsItself(probes, k);
    }
  }

  /** A counted function is among those left to be attached by hand if its id is. */
  lemma {:induction false} ManualNumber(probes: seq<Probe>, k: nat)
    requires k < |NumberAll(probes)| && Counts(NumberAll(probes)[k])
    ensures var ws := NumberAll(probes);
            ManualOf(ws[k]) in ManualsOf(Outputs(ws).manual) <==> ws[k] in Outputs(ws).manual
  {
    var ws := NumberAll(probes);
    var manual := Outputs(ws).manual;
    KeptInText(manual, ws[k]);
    if m :| 0 <= m < |manual| && ManualsOf(manual)[m] == ManualOf(ws[k]) {
      GeneratedExactly(ws, manual[m]);
      GeneratedFrom(ws, manual[m]);
      var j :| 0 <= j < |ws| && ws[j] == manual[m];
      PrintInjective(ws[j].id, ws[k].id, 10);
      IdsDiffer(probes, j, k);
    }
  }

  /** A uprobe function that is the name and the address of a symbol is attached at exactly that address
      if and only if no earlier function counts under its name. */
  lemma {:induction false} SymbolAttachedAtItsValue(probes: seq<Probe>, k: nat, s: Symbol)
    requires CustomIdsApart(probes) && FIRST_ID + Counted(probes) <= LIMIT
    requires k < |NumberAll(probes)| && NumberAll(probes)[k].probe.kind.UProbe?
    requires !HasColon(s.name) && NumberAll(probes)[k].func == s.name + ":" + OffsetText(s.value)
    ensures var ws := NumberAll(probes);
            var w, o := ws[k], Outputs(ws);
            (ManualOf(w) in ManualsOf(o.manual)
             && Rebuild(Categories(ws), Entries(o.programs), ManualOf(w).id)
                == Attach(EntryName(s.name, IdText(w)), ExitName(s.name, IdText(w)), s.value))
            <==> FirstOfName(ws, k)
  {
    SplitJoined(s.name, OffsetText(s.value));
    ParseHex(s.value);
    RebuildsProgram(probes, k, s.value);
  }

  /** From the symbol table to the address: every function symbol whose name has no colon and that has
      to show its address is listed with it, and as function `k` of the probes it is attached at that
      address if and only if no earlier function counts under its name. */
  lemma {:induction false} ListedSymbolAttached(syms: seq<Symbol>, includeOffsets: bool, s: Symbol, probes: seq<Probe>, k: nat)
    requires s in syms && Listed(s) && s.name !in EXCLUDED && s.name != "" && !HasColon(s.name)
    requires includeOffsets || |Offsets(syms, s.name)| > 1
    requires CustomIdsApart(probes) && FIRST_ID + Counted(probes) <= LIMIT
    requires k < |NumberAll(probes)| && NumberAll(probes)[k].probe.kind.UProbe?
    requires NumberAll(probes)[k].func == s.name + ":" + OffsetText(s.value)
    ensures s.name in ShownFor(syms, Names(syms), includeOffsets, NumberAll(probes)[k].func)
    ensures var ws := NumberAll(probes);
            var w, o := ws[k], Outputs(ws);
            (ManualOf(w) in ManualsOf(o.manual)
             && Rebuild(Categories(ws), Entries(o.programs), ManualOf(w).id)
                == Attach(EntryName(s.name, IdText(w)), ExitName(s.name, IdText(w)), s.value))
            <==> FirstOfName(ws, k)
  {
    ColonExact(s.name);
    SymbolShown(syms, includeOffsets, s);
    SymbolAttachedAtItsValue(probes, k, s);
  }

  /** The same function of the same binary loses nothing when it is dropped: the first one is attached
      there, provided nothing else counts under its name before. */
  lemma {:induction false} RepeatedFunctionAttached(probes: seq<Probe>, j: nat, k: nat, s: Symbol)
    requires CustomIdsApart(probes) && FIRST_ID + Counted(probes) <= LIMIT
    requires j < k < |NumberAll(probes)| && NumberAll(probes)[k].probe.kind.UProbe? && NumberAll(probes)[j].probe.kind.UProbe?
    requires NumberAll(probes)[j].probe.binary == NumberAll(probes)[k].probe.binary
    requires NumberAll(probes)[j].func == NumberAll(probes)[k].func == s.name + ":" + OffsetText(s.value)
    requires !HasColon(s.name) && FirstOfName(NumberAll(probes), j)
    ensures var ws := NumberAll(probes);
            && ManualOf(ws[k]) !in ManualsOf(Outputs(ws).manual)
            && ManualOf(ws[j]) in ManualsOf(Outputs(ws).manual) && ManualOf(ws[j]).binary == ws[k].probe.binary
            && Rebuild(Categories(ws), Entries(Outputs(ws).programs), ManualOf(ws[j]).id)
               == Attach(EntryName(s.name, IdText(ws[j])), ExitName(s.name, IdText(ws[j])), s.value)
  {
    var ws := NumberAll(probes);
    SymbolAttachedAtItsValue(probes, j, s);
    assert Combined(ws[j]) == Combined(ws[k]);
    GeneratedNumber(probes, k);
    ManualNumber(probes, k);
  }

  // ---------- Overlapping ids ----------

  function OverlappingProbes(func: string): seq<Probe> {
    [Probe(UProbe, "u", "lib", "", ["g:0x10"], 0), Probe(Custom, "c", "", "", [func], 1000)]
  }

  lemma {:induction false} OverlapNumbers(func: string)
    requires func != "lib_g_0x10"
    ensures var probes := OverlappingProbes(func);
            var a, b := Numbered(1000, probes[0], "g:0x10"), Numbered(1000, probes[1], func);
            && NumberAll(probes) == [a, b] && LastWith([a, b], 1000) == Some(1)
            && Outputs([a, b]).manual == Outputs([a, b]).programs == [a]
  {
    var probes := OverlappingProbes(func);
    var a, b := Numbered(1000, probes[0], "g:0x10"), Numbered(1000, probes[1], func);
    NumberTwo(probes[0], probes[1]);
    SplitJoined("g", "0x10");
    assert "g" + ":" + "0x10" == "g:0x10" && "lib" + "_" + "g" + "_" + "0x10" == "lib_g_0x10";
    OneMore([], a);
    OneMore([a], b);
    assert [] + [a] == [a] && [a] + [b] == [a, b];
  }

  /** A custom probe whose ids overlap the counter's takes the place of a function.  If its own function
      has no colon, the server does not attach the program; */
  lemma {:induction false} OverlapLosesFunction()
    ensures var ws := NumberAll(OverlappingProbes("f"));
            && |ws| == 2 && Outputs(ws).manual == [ws[0]] && ws[0].func == "g:0x10"
            && Rebuild(Categories(ws), Entries(Outputs(ws).programs), IdText(ws[0])) == Fail
  {
    OverlapNumbers("f");
    var ws := NumberAll(OverlappingProbes("f"));
    LastWithExact(ws, 1000);
    ParseDecimal(1000);
    assert Colon("f") == 1;
  }

  /** if it has, the server attaches the program where the custom probe's function says. */
  lemma {:induction false} OverlapMovesFunction()
    ensures var ws := NumberAll(OverlappingProbes("g:0x20"));
            && |ws| == 2 && Outputs(ws).manual == [ws[0]] && ws[0].func == "g:0x10"
            && Rebuild(Categories(ws), Entries(Outputs(ws).programs), IdText(ws[0]))
               == Attach(ProgramOf(ws[0]).entry, ProgramOf(ws[0]).exit, 0x20)
  {
    OverlapNumbers("g:0x20");
    var ws := NumberAll(OverlappingProbes("g:0x20"));
    MovedTo(ws[0]);
    RebuildExactly(ws, ws[0], 0x20);
  }

  lemma {:induction false} MovedTo(w: Numbered)
    requires w.func == "g:0x10"
    ensures Rereads("g:0x20", w, 0x20)
  {
    SplitJoined("g", "0x10");
    SplitJoined("g", "0x20");
    assert "g" + ":" + "0x10" == "g:0x10" && "g" + ":" + "0x20" == "g:0x20";
    ParseTwenty();
  }

  lemma {:induction false} ParseTwenty()
    ensures Parse("0x20") == Some(0x20)
  {
    ParseHex(0x20);
    assert Print(2, 16) == "2" && Print(0x20, 16) == Print(2, 16) + [DigitChar(0)];
    assert "0x" + Print(0x20, 16) == "0x20";
  }
}
