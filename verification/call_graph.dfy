/** The imperative pass of tools/callgraph_vis.cpp: node objects updated in place, an array used as
    the stack, child arrays that grow, and the recursive walk that fills in exclusive times. */
module CallGraph {
  import opened Common
  import opened CallForest
  import opened CallForestTheorems
  import opened CallForestAggregation

  class Node {
    const name: string
    const ts: int
    const tsEnd: int
    var dur: int
    var exclusiveDur: int
    var children: seq<Node>
    var count: int
    var max: int
    var min: int
    var depth: int

    constructor (e: Event)
      ensures name == e.name && ts == e.ts && tsEnd == e.ts + e.dur
      ensures dur == e.dur && min == e.dur && max == e.dur && count == 1 && children == []
    {
      name, ts, tsEnd := e.name, e.ts, e.ts + e.dur;
      dur, min, max, count := e.dur, e.dur, e.dur, 1;
      children, exclusiveDur, depth := [], 0, 0;
    }
  }

  // ---------- The lists and counters, one event at a time ----------

  /** The counters of a node. */
  datatype Stat = Stat(dur: int, count: int, min: int, max: int) {
    function Plus(d: int): Stat {
      Stat(dur + d, count + 1, if min > d then d else min, if max < d then d else max)
    }
  }

  function MinDur(evs: seq<Event>, ks: seq<nat>): int
    requires Within(ks, |evs|)
  {
    if |ks| == 0 then 0 else
    var d := evs[ks[|ks| - 1]].dur;
    if |ks| == 1 then d else
    var m := MinDur(evs, ks[..|ks| - 1]);
    if m > d then d else m
  }

  function MaxDur(evs: seq<Event>, ks: seq<nat>): int
    requires Within(ks, |evs|)
  {
    if |ks| == 0 then 0 else
    var d := evs[ks[|ks| - 1]].dur;
    if |ks| == 1 then d else
    var m := MaxDur(evs, ks[..|ks| - 1]);
    if m < d then d else m
  }

  /** The minimum and maximum of a fold are durations of members, and bound all of them. */
  lemma {:induction false} MinMaxExact(evs: seq<Event>, ks: seq<nat>)
    requires |ks| > 0 && Within(ks, |evs|)
    ensures forall k | 0 <= k < |ks| :: MinDur(evs, ks) <= evs[ks[k]].dur <= MaxDur(evs, ks)
    ensures exists k :: 0 <= k < |ks| && evs[ks[k]].dur == MinDur(evs, ks)
    ensures exists k :: 0 <= k < |ks| && evs[ks[k]].dur == MaxDur(evs, ks)
  {
    var last := |ks| - 1;
    assert evs[ks[last]].dur == evs[ks[last]].dur;
    if |ks| > 1 {
      var init := ks[..last];
      MinMaxExact(evs, init);
      assert forall k | 0 <= k < |init| :: init[k] == ks[k];
    }
  }

  /** The counters a list of events adds up to. */
  function StatOf(evs: seq<Event>, ks: seq<nat>): Stat
    requires Within(ks, |evs|)
  {
    Stat(SumDur(evs, ks), |ks|, MinDur(evs, ks), MaxDur(evs, ks))
  }

  /** All lists and counters at once: `lists[m]` are the entries under event `m`. */
  datatype Book = Book(lists: seq<seq<nat>>, roots: seq<nat>, stats: seq<Stat>)

  /** Lists mention only events already placed. */
  ghost predicate Ledger(b: Book, i: nat, n: nat) {
    && i <= n && |b.lists| == |b.stats| == n && Within(b.roots, i)
    && (forall m | 0 <= m < n :: Within(b.lists[m], i))
  }

  function ListsAt(evs: seq<Event>, ps: seq<Placement>, aggregate: bool, n: nat): seq<seq<nat>>
    requires n <= |ps| == |evs| && Backward(ps)
  {
    seq(|evs|, m requires 0 <= m < |evs| => Entries(evs, ps, aggregate, Some(m), n))
  }

  function StatsAt(evs: seq<Event>, ps: seq<Placement>, aggregate: bool, n: nat): seq<Stat>
    requires n <= |ps| == |evs| && Backward(ps)
  {
    seq(|evs|, m requires 0 <= m < |evs| => StatOf(evs, Members(evs, ps, aggregate, m, n)))
  }

  function BookAt(evs: seq<Event>, ps: seq<Placement>, aggregate: bool, n: nat): (b: Book)
    requires n <= |ps| == |evs| && Backward(ps)
    ensures Ledger(b, n, |evs|)
  {
    Book(ListsAt(evs, ps, aggregate, n), Entries(evs, ps, aggregate, None, n), StatsAt(evs, ps, aggregate, n))
  }

  /** The position of the first entry with the given name, or the length of the list. */
  function Find(evs: seq<Event>, keys: seq<nat>, name: string): (j: nat)
    requires Within(keys, |evs|)
    ensures j <= |keys| && (j < |keys| ==> evs[keys[j]].name == name)
    ensures forall k | 0 <= k < j :: evs[keys[k]].name != name
  {
    if |keys| == 0 || evs[keys[0]].name == name then 0 else 1 + Find(evs, keys[1..], name)
  }

  datatype Entered = Entered(keys: seq<nat>, stats: seq<Stat>)

  /** Entering event `i` in a list: accounted to the entry with its name, or appended. */
  function Enter(evs: seq<Event>, aggregate: bool, keys: seq<nat>, stats: seq<Stat>, i: nat): Entered
    requires Within(keys, |evs|) && |stats| == |evs| && i < |evs|
  {
    var j := Find(evs, keys, evs[i].name);
    if aggregate && j < |keys| then Entered(keys, stats[keys[j] := stats[keys[j]].Plus(evs[i].dur)])
    else Entered(keys + [i], stats)
  }

  function Placed(evs: seq<Event>, ps: seq<Placement>, aggregate: bool, b: Book, i: nat): Book
    requires i < |ps| == |evs| && Backward(ps) && Ledger(b, i, |evs|)
  {
    if !ps[i].kept then b
    else match ps[i].parent
      case None =>
        var e := Enter(evs, aggregate, b.roots, b.stats, i);
        Book(b.lists, e.keys, e.stats)
      case Some(p) =>
        var e := Enter(evs, aggregate, b.lists[p], b.stats, i);
        Book(b.lists[p := e.keys], b.roots, e.stats)
  }

  /** Placing event `i` touches no list but its parent's. */
  lemma {:induction false} EntriesStep(evs: seq<Event>, ps: seq<Placement>, aggregate: bool, owner: Option<nat>, i: nat)
    requires i < |ps| == |evs| && Backward(ps)
    ensures var before, after := Entries(evs, ps, aggregate, owner, i), Entries(evs, ps, aggregate, owner, i + 1);
            after == if !IsKid(ps, owner, i) || (aggregate && HasName(evs, before, evs[i].name)) then before
                     else before + [i]
  {
    var kids := Kids(ps, owner, i);
    if IsKid(ps, owner, i) {
      assert (kids + [i])[..|kids|] == kids;
    }
  }

  /** It adds to the members of at most one node: the entry with its name in its parent's list. */
  lemma {:induction false} MembersStep(evs: seq<Event>, ps: seq<Placement>, aggregate: bool, m: nat, i: nat)
    requires i < |ps| == |evs| && Backward(ps) && m < |evs|
    ensures var before, after := Members(evs, ps, aggregate, m, i), Members(evs, ps, aggregate, m, i + 1);
            after == if && aggregate && IsKid(ps, ps[m].parent, i) && evs[m].name == evs[i].name
                        && m in Entries(evs, ps, aggregate, ps[m].parent, i)
                     then before + [i] else before
  {
    var owner := ps[m].parent;
    var kids := Kids(ps, owner, i);
    if aggregate && IsKid(ps, owner, i) {
      EntriesStep(evs, ps, aggregate, owner, i);
      WithNameSnoc(evs, kids, i, evs[m].name);
      if m == i {
        FirstsAreDistinct(evs, kids);
        KidsMembership(ps, owner, i, i);
        FreshMember(evs, kids, i);
      }
    }
  }

  lemma {:induction false} FreshMember(evs: seq<Event>, kids: seq<nat>, i: nat)
    requires Within(kids, |evs|) && i < |evs|
    ensures !HasName(evs, kids, evs[i].name) ==> WithName(evs, kids, evs[i].name) + [i] == [i]
  {
    if !HasName(evs, kids, evs[i].name) {
      WithNameAbsent(evs, kids, evs[i].name);
    }
  }

  /** When the parent's list has an entry `t` with the name of event `i`, only `t` gains a member. */
  lemma {:induction false} MembersMerged(evs: seq<Event>, ps: seq<Placement>, m: nat, i: nat, t: nat)
    requires i < |ps| == |evs| && Backward(ps) && m < |evs|
    requires ps[i].kept && t in Entries(evs, ps, true, ps[i].parent, i) && evs[t].name == evs[i].name
    ensures var before, after := Members(evs, ps, true, m, i), Members(evs, ps, true, m, i + 1);
            after == if m == t then before + [i] else before
  {
    MembersStep(evs, ps, true, m, i);
    var kids := Kids(ps, ps[i].parent, i);
    FirstsAreDistinct(evs, kids);
    KidsMembership(ps, ps[i].parent, i, t);
    if ps[m].parent == ps[i].parent && m in Firsts(evs, kids) {
      var j :| 0 <= j < |Firsts(evs, kids)| && Firsts(evs, kids)[j] == m;
      var k :| 0 <= k < |Firsts(evs, kids)| && Firsts(evs, kids)[k] == t;
    }
  }

  lemma {:induction false} MembersAppended(evs: seq<Event>, ps: seq<Placement>, aggregate: bool, m: nat, i: nat)
    requires i < |ps| == |evs| && Backward(ps) && m < |evs|
    requires aggregate ==> !HasName(evs, Entries(evs, ps, true, ps[i].parent, i), evs[i].name)
    ensures Members(evs, ps, aggregate, m, i + 1) == Members(evs, ps, aggregate, m, i)
  {
    MembersStep(evs, ps, aggregate, m, i);
  }

  /** An event that has not been placed yet stands for itself alone. */
  lemma {:induction false} Unplaced(evs: seq<Event>, ps: seq<Placement>, aggregate: bool, i: nat, n: nat)
    requires n <= i < |ps| == |evs| && Backward(ps)
    ensures Members(evs, ps, aggregate, i, n) == [i] && SumDur(evs, [i]) == evs[i].dur
    ensures forall owner :: i !in Entries(evs, ps, aggregate, owner, n)
  {
    assert [i][..0] == [];
  }

  lemma {:induction false} StatSnoc(evs: seq<Event>, ks: seq<nat>, i: nat)
    requires |ks| > 0 && Within(ks, |evs|) && i < |evs|
    ensures StatOf(evs, ks + [i]) == StatOf(evs, ks).Plus(evs[i].dur)
  {
    assert (ks + [i])[..|ks|] == ks;
  }

  lemma {:induction false} EnterStep(evs: seq<Event>, ps: seq<Placement>, aggregate: bool, i: nat)
    requires i < |ps| == |evs| && Backward(ps) && ps[i].kept
    ensures var keys := Entries(evs, ps, aggregate, ps[i].parent, i);
            (Enter(evs, aggregate, keys, StatsAt(evs, ps, aggregate, i), i)
             == Entered(Entries(evs, ps, aggregate, ps[i].parent, i + 1), StatsAt(evs, ps, aggregate, i + 1)))
  {
    EntriesStep(evs, ps, aggregate, ps[i].parent, i);
    StatsStep(evs, ps, aggregate, i, Find(evs, Entries(evs, ps, aggregate, ps[i].parent, i), evs[i].name));
  }

  lemma {:induction false} StatsStep(evs: seq<Event>, ps: seq<Placement>, aggregate: bool, i: nat, j: nat)
    requires i < |ps| == |evs| && Backward(ps) && ps[i].kept
    requires j == Find(evs, Entries(evs, ps, aggregate, ps[i].parent, i), evs[i].name)
    ensures var keys := Entries(evs, ps, aggregate, ps[i].parent, i);
            var before := StatsAt(evs, ps, aggregate, i);
            StatsAt(evs, ps, aggregate, i + 1)
            == if aggregate && j < |keys| then before[keys[j] := before[keys[j]].Plus(evs[i].dur)] else before
  {
    var keys := Entries(evs, ps, aggregate, ps[i].parent, i);
    var before, after := StatsAt(evs, ps, aggregate, i), StatsAt(evs, ps, aggregate, i + 1);
    forall m: nat | m < |evs|
      ensures after[m] == if aggregate && j < |keys| && m == keys[j] then before[m].Plus(evs[i].dur) else before[m]
    {
      StatStep(evs, ps, aggregate, i, j, m);
    }
    assert |before| == |after| == |evs|;
  }

  lemma {:induction false} StatStep(evs: seq<Event>, ps: seq<Placement>, aggregate: bool, i: nat, j: nat, m: nat)
    requires i < |ps| == |evs| && Backward(ps) && ps[i].kept && m < |evs|
    requires j == Find(evs, Entries(evs, ps, aggregate, ps[i].parent, i), evs[i].name)
    ensures var keys := Entries(evs, ps, aggregate, ps[i].parent, i);
            var before := StatOf(evs, Members(evs, ps, aggregate, m, i));
            StatOf(evs, Members(evs, ps, aggregate, m, i + 1))
            == if aggregate && j < |keys| && m == keys[j] then before.Plus(evs[i].dur) else before
  {
    var keys := Entries(evs, ps, aggregate, ps[i].parent, i);
    if aggregate && j < |keys| {
      MembersMerged(evs, ps, m, i, keys[j]);
      MembersNonEmpty(evs, ps, true, m, i);
      StatSnoc(evs, Members(evs, ps, true, m, i), i);
    } else {
      MembersAppended(evs, ps, aggregate, m, i);
    }
  }

  lemma {:induction false} ListsStep(evs: seq<Event>, ps: seq<Placement>, aggregate: bool, i: nat)
    requires i < |ps| == |evs| && Backward(ps)
    ensures var before, after := ListsAt(evs, ps, aggregate, i), ListsAt(evs, ps, aggregate, i + 1);
            match ps[i].parent
            case None => after == before
            case Some(p) => after == before[p := Entries(evs, ps, aggregate, Some(p), i + 1)]
  {
    var before, after := ListsAt(evs, ps, aggregate, i), ListsAt(evs, ps, aggregate, i + 1);
    forall m | 0 <= m < |evs| && ps[i].parent != Some(m) ensures after[m] == before[m] {
      EntriesStep(evs, ps, aggregate, Some(m), i);
    }
  }

  lemma {:induction false} DroppedStep(evs: seq<Event>, ps: seq<Placement>, aggregate: bool, i: nat)
    requires i < |ps| == |evs| && Backward(ps) && !ps[i].kept
    ensures BookAt(evs, ps, aggregate, i + 1) == BookAt(evs, ps, aggregate, i)
  {
    ListsStep(evs, ps, aggregate, i);
    EntriesStep(evs, ps, aggregate, None, i);
    EntriesStep(evs, ps, aggregate, ps[i].parent, i);
    forall m | 0 <= m < |evs| ensures StatsAt(evs, ps, aggregate, i + 1)[m] == StatsAt(evs, ps, aggregate, i)[m] {
      MembersStep(evs, ps, aggregate, m, i);
    }
  }

  /** The declarative lists and counters grow exactly as the loop grows its arrays. */
  lemma {:induction false} BookStep(evs: seq<Event>, ps: seq<Placement>, aggregate: bool, i: nat)
    requires i < |ps| == |evs| && Backward(ps)
    ensures BookAt(evs, ps, aggregate, i + 1) == Placed(evs, ps, aggregate, BookAt(evs, ps, aggregate, i), i)
  {
    if ps[i].kept {
      ListsStep(evs, ps, aggregate, i);
      EnterStep(evs, ps, aggregate, i);
      if ps[i].parent.Some? {
        EntriesStep(evs, ps, aggregate, None, i);
      }
    } else {
      DroppedStep(evs, ps, aggregate, i);
    }
  }

  // ---------- What the node objects hold ----------

  /** The nodes are distinct objects, one per event. */
  ghost predicate Loaded(nodes: seq<Node>, evs: seq<Event>) {
    && |nodes| == |evs|
    && (forall i | 0 <= i < |nodes| ::
          nodes[i].name == evs[i].name && nodes[i].ts == evs[i].ts && nodes[i].tsEnd == evs[i].End())
    && (forall i, j | 0 <= i < j < |nodes| :: nodes[i] != nodes[j])
  }

  function Refs(nodes: seq<Node>, ks: seq<nat>): (r: seq<Node>)
    requires Within(ks, |nodes|)
  {
    seq(|ks|, k requires 0 <= k < |ks| => nodes[ks[k]])
  }

  ghost predicate Holds(n: Node, s: Stat)
    reads n`dur, n`count, n`min, n`max
  {
    n.dur == s.dur && n.count == s.count && n.min == s.min && n.max == s.max
  }

  ghost predicate StatsOk(nodes: seq<Node>, stats: seq<Stat>)
    requires |nodes| == |stats|
    reads (set m | m in nodes)`dur, (set m | m in nodes)`count
    reads (set m | m in nodes)`min, (set m | m in nodes)`max
  {
    forall i | 0 <= i < |nodes| :: Holds(nodes[i], stats[i])
  }

  ghost predicate ChildrenOk(nodes: seq<Node>, lists: seq<seq<nat>>)
    requires |nodes| == |lists|
    reads (set m | m in nodes)`children
  {
    forall i | 0 <= i < |nodes| :: Within(lists[i], |nodes|) && nodes[i].children == Refs(nodes, lists[i])
  }

  ghost predicate DepthsOk(nodes: seq<Node>, ps: seq<Placement>, n: nat)
    requires n <= |ps| == |nodes|
    reads (set m | m in nodes)`depth
  {
    forall i | 0 <= i < n :: nodes[i].depth == ps[i].depth
  }

  // ---------- The pass ----------

  /** The first node of the list with the given name, or the length of the list. */
  method FindByName(list: seq<Node>, name: string) returns (j: nat)
    ensures j <= |list| && forall k | 0 <= k < j :: list[k].name != name
    ensures j < |list| ==> list[j].name == name
  {
    j := 0;
    while j < |list| && list[j].name != name
      invariant j <= |list| && forall k | 0 <= k < j :: list[k].name != name
    {
      j := j + 1;
    }
  }

  /** Accounts a call to an entry. */
  method Account(entry: Node, call: Node, ghost s: Stat)
    requires entry != call && Holds(entry, s)
    modifies entry`dur, entry`count, entry`min, entry`max
    ensures Holds(entry, s.Plus(call.dur))
  {
    if entry.max < call.dur { entry.max := call.dur; }
    if entry.min > call.dur { entry.min := call.dur; }
    entry.dur := entry.dur + call.dur;
    entry.count := entry.count + 1;
  }

  /** Puts call `i` into its list: accounted to the entry with its name when aggregating, and
      appended otherwise. */
  method Attach(nodes: seq<Node>, list: seq<Node>, call: Node, aggregate: bool,
                ghost evs: seq<Event>, ghost keys: seq<nat>, ghost stats: seq<Stat>, ghost i: nat)
      returns (after: seq<Node>)
    requires Loaded(nodes, evs) && i < |nodes| && call == nodes[i] && call.dur == evs[i].dur
    requires Within(keys, i) && list == Refs(nodes, keys)
    requires |stats| == |nodes| && StatsOk(nodes, stats)
    modifies (set m | m in nodes)`dur, (set m | m in nodes)`count, (set m | m in nodes)`min, (set m | m in nodes)`max
    ensures after == Refs(nodes, Enter(evs, aggregate, keys, stats, i).keys)
    ensures StatsOk(nodes, Enter(evs, aggregate, keys, stats, i).stats)
  {
    if aggregate {
      assert forall k | 0 <= k < |keys| :: list[k].name == evs[keys[k]].name;
      var j := FindByName(list, call.name);
      assert j == Find(evs, keys, evs[i].name);
      if j < |list| {
        Account(list[j], call, stats[keys[j]]);
        return list;
      }
    }
    after := list + [call];
  }

  /** What the loop has built once the first `n` events are placed. */
  ghost predicate Built(nodes: seq<Node>, roots: seq<Node>, ps: seq<Placement>, b: Book, n: nat)
    reads (set m | m in nodes)`dur, (set m | m in nodes)`count, (set m | m in nodes)`min, (set m | m in nodes)`max
    reads (set m | m in nodes)`children, (set m | m in nodes)`depth
  {
    && n <= |ps| == |nodes| && Ledger(b, n, |nodes|) && roots == Refs(nodes, b.roots)
    && DepthsOk(nodes, ps, n) && StatsOk(nodes, b.stats) && ChildrenOk(nodes, b.lists)
  }

  /** The lists still mention only placed events after event `i` has entered its parent's. */
  lemma {:induction false} LedgerStep(evs: seq<Event>, ps: seq<Placement>, aggregate: bool, b: Book, i: nat)
    requires i < |ps| == |evs| && Backward(ps) && Ledger(b, i, |evs|)
    ensures Ledger(Placed(evs, ps, aggregate, b, i), i + 1, |evs|)
  {
  }

  /** Puts the call under `parent`. */
  method Adopt(nodes: seq<Node>, parent: Node, call: Node, aggregate: bool,
               ghost evs: seq<Event>, ghost b: Book, ghost p: nat, ghost i: nat)
    requires Loaded(nodes, evs) && p < i < |nodes| && call == nodes[i] && parent == nodes[p] && call.dur == evs[i].dur
    requires Ledger(b, i, |nodes|) && StatsOk(nodes, b.stats) && ChildrenOk(nodes, b.lists)
    modifies (set m | m in nodes)`dur, (set m | m in nodes)`count, (set m | m in nodes)`min, (set m | m in nodes)`max
    modifies parent`children
    ensures var e := Enter(evs, aggregate, b.lists[p], b.stats, i);
            StatsOk(nodes, e.stats) && ChildrenOk(nodes, b.lists[p := e.keys])
  {
    var children := Attach(nodes, parent.children, call, aggregate, evs, b.lists[p], b.stats, i);
    parent.children := children;
  }

  /** One turn of the loop, after the stack has been popped: `parent` is the call left on top. */
  method PlaceCall(nodes: seq<Node>, roots: seq<Node>, parent: Node?, call: Node, aggregate: bool, depthCut: int,
                   ghost evs: seq<Event>, ghost ps: seq<Placement>, ghost b: Book, ghost i: nat)
      returns (after: seq<Node>, pushed: bool)
    requires i < |ps| == |evs| && Backward(ps) && Loaded(nodes, evs) && call == nodes[i] && call.dur == evs[i].dur
    requires match ps[i].parent
             case None => parent == null && ps[i].depth == 0
             case Some(p) => parent == nodes[p] && ps[i].depth == ps[p].depth + 1
    requires ps[i].kept <==> Survives(ps[i].depth, depthCut)
    requires Built(nodes, roots, ps, b, i)
    modifies (set m | m in nodes)`dur, (set m | m in nodes)`count, (set m | m in nodes)`min, (set m | m in nodes)`max
    modifies (set m | m in nodes)`children, (set m | m in nodes)`depth
    ensures Built(nodes, after, ps, Placed(evs, ps, aggregate, b, i), i + 1)
    ensures pushed <==> ps[i].kept
    ensures !pushed ==> call.dur == evs[i].dur
  {
    LedgerStep(evs, ps, aggregate, b, i);
    after := roots;
    if parent != null {
      call.depth := parent.depth + 1;
      if call.depth > depthCut {
        return after, false;
      }
      Adopt(nodes, parent, call, aggregate, evs, b, ps[i].parent.value, i);
    } else {
      call.depth := 0;
      after := Attach(nodes, roots, call, aggregate, evs, b.roots, b.stats, i);
    }
    pushed := true;
  }

  /** The stack array holds the nodes of the calls the specification says are open. */
  ghost predicate Mirrors(stack: array<Node?>, top: int, nodes: seq<Node>, open: seq<nat>)
    reads stack
  {
    && top + 1 == |open| <= stack.Length && Within(open, |nodes|)
    && forall k | 0 <= k < |open| :: stack[k] == nodes[open[k]]
  }

  /** Pops the calls that have ended by the time `call` starts. */
  method PopEnded(stack: array<Node?>, start: int, nodes: seq<Node>, call: Node,
                  ghost evs: seq<Event>, ghost open: seq<nat>)
      returns (top: int)
    requires Loaded(nodes, evs) && Mirrors(stack, start, nodes, open)
    ensures Mirrors(stack, top, nodes, Popped(evs, open, call.ts))
  {
    top := start;
    ghost var rest := open;
    while top > -1 && call.ts >= stack[top].tsEnd
      invariant Mirrors(stack, top, nodes, rest)
      invariant Popped(evs, rest, call.ts) == Popped(evs, open, call.ts)
    {
      top := top - 1;
      rest := rest[..|rest| - 1];
    }
  }

  method Push(stack: array<Node?>, below: int, nodes: seq<Node>, call: Node, ghost open: seq<nat>, ghost i: nat)
      returns (top: int)
    requires Mirrors(stack, below, nodes, open) && |open| < stack.Length && i < |nodes| && call == nodes[i]
    modifies stack
    ensures Mirrors(stack, top, nodes, open + [i])
  {
    top := below + 1;
    stack[top] := call;
  }

  /** Event `i` is placed on the open calls: below the last of them, one level deeper. */
  ghost predicate PlacedOn(evs: seq<Event>, ps: seq<Placement>, cut: int, i: nat, open: seq<nat>) {
    && i < |ps| == |evs| && Backward(ps)
    && |open| == ps[i].depth <= i
    && (ps[i].kept <==> Survives(ps[i].depth, cut))
    && (match ps[i].parent
        case None => ps[i].depth == 0
        case Some(p) => |open| > 0 && ps[i].depth == ps[p].depth + 1 && open[|open| - 1] == p)
  }

  /** The loop's variables, as the specification sees them. */
  datatype State = State(stack: seq<nat>, book: Book, excluded: int)

  function Turned(evs: seq<Event>, ps: seq<Placement>, aggregate: bool, s: State, i: nat): (r: State)
    requires i < |ps| == |evs| && Backward(ps) && Ledger(s.book, i, |evs|) && Within(s.stack, i)
    ensures Ledger(r.book, i + 1, |evs|) && Within(r.stack, i + 1)
  {
    LedgerStep(evs, ps, aggregate, s.book, i);
    var open, book := Popped(evs, s.stack, evs[i].ts), Placed(evs, ps, aggregate, s.book, i);
    if ps[i].kept then State(open + [i], book, s.excluded) else State(open, book, s.excluded + evs[i].dur)
  }

  function StateAt(evs: seq<Event>, ps: seq<Placement>, aggregate: bool, n: nat): (s: State)
    requires n <= |ps| == |evs| && Backward(ps)
    ensures Ledger(s.book, n, |evs|) && Within(s.stack, n)
  {
    if n == 0 then State([], BookAt(evs, ps, aggregate, 0), 0)
    else Turned(evs, ps, aggregate, StateAt(evs, ps, aggregate, n - 1), n - 1)
  }

  /** The loop's lists and counters are the declarative ones, wherever the events were placed. */
  lemma {:induction false} BookIs(evs: seq<Event>, ps: seq<Placement>, aggregate: bool, n: nat)
    requires n <= |ps| == |evs| && Backward(ps)
    ensures StateAt(evs, ps, aggregate, n).book == BookAt(evs, ps, aggregate, n)
  {
    var s := BookFound(evs, ps, aggregate, n);
  }

  lemma {:induction false} BookFound(evs: seq<Event>, ps: seq<Placement>, aggregate: bool, n: nat) returns (s: State)
    requires n <= |ps| == |evs| && Backward(ps)
    ensures s == StateAt(evs, ps, aggregate, n)
    ensures Ledger(s.book, n, |evs|) && Within(s.stack, n) && s.book == BookAt(evs, ps, aggregate, n)
  {
    if n == 0 {
      s := StateAt(evs, ps, aggregate, 0);
    } else {
      var before := BookFound(evs, ps, aggregate, n - 1);
      s := BookTurned(evs, ps, aggregate, n - 1, before);
      StateStep(evs, ps, aggregate, n, before);
    }
  }

  lemma {:induction false} StateStep(evs: seq<Event>, ps: seq<Placement>, aggregate: bool, n: nat, before: State)
    requires 0 < n <= |ps| == |evs| && Backward(ps) && before == StateAt(evs, ps, aggregate, n - 1)
    ensures Ledger(before.book, n - 1, |evs|) && Within(before.stack, n - 1)
    ensures StateAt(evs, ps, aggregate, n) == Turned(evs, ps, aggregate, before, n - 1)
  {
  }

  lemma {:induction false} BookTurned(evs: seq<Event>, ps: seq<Placement>, aggregate: bool, i: nat, s: State) returns (t: State)
    requires i < |ps| == |evs| && Backward(ps) && Ledger(s.book, i, |evs|) && Within(s.stack, i)
    requires s.book == BookAt(evs, ps, aggregate, i)
    ensures t == Turned(evs, ps, aggregate, s, i) && t.book == BookAt(evs, ps, aggregate, i + 1)
  {
    BookStep(evs, ps, aggregate, i);
    t := Turned(evs, ps, aggregate, s, i);
  }

  lemma {:induction false} ExcludedIs(evs: seq<Event>, ps: seq<Placement>, aggregate: bool, n: nat)
    requires n <= |ps| == |evs| && Backward(ps)
    ensures StateAt(evs, ps, aggregate, n).excluded == ExcludedTime(evs, ps, n)
  {
    if n == 0 {
    } else {
      ExcludedIs(evs, ps, aggregate, n - 1);
    }
  }

  lemma {:induction false} UnplacedStat(evs: seq<Event>, ps: seq<Placement>, aggregate: bool, i: nat)
    requires i < |ps| == |evs| && Backward(ps)
    ensures StateAt(evs, ps, aggregate, i).book.stats[i].dur == evs[i].dur
  {
    BookIs(evs, ps, aggregate, i);
    Unplaced(evs, ps, aggregate, i, i);
  }

  lemma {:induction false} StackIs(evs: seq<Event>, cut: int, aggregate: bool, n: nat)
    requires n <= |evs|
    ensures StateAt(evs, Place(evs, cut), aggregate, n).stack == StackAt(evs, cut, n)
  {
    var stacks := seq(n + 1, i requires 0 <= i <= n => StackAt(evs, cut, i));
    forall i | 0 <= i < n ensures Stacks(evs, cut, Place(evs, cut), stacks, i) {
      StackStep(evs, cut, i);
    }
    var s := StackFound(evs, cut, Place(evs, cut), aggregate, n, stacks);
  }

  /** The stack after event `i` is what one turn makes of the stack before, and the placement keeps what
      the turn keeps. */
  ghost predicate Stacks(evs: seq<Event>, cut: int, ps: seq<Placement>, stacks: seq<seq<nat>>, i: nat)
    requires i < |ps| == |evs| && i + 1 < |stacks|
  {
    && Within(stacks[i], i)
    && stacks[i + 1] == CallForest.Next(evs, cut, stacks[i], i)
    && (ps[i].kept <==> Survives(|Popped(evs, stacks[i], evs[i].ts)|, cut))
  }

  lemma {:induction false} StackFound(evs: seq<Event>, cut: int, ps: seq<Placement>, aggregate: bool, n: nat,
                                      stacks: seq<seq<nat>>)
      returns (s: State)
    requires n <= |ps| == |evs| && Backward(ps) && n < |stacks| && stacks[0] == []
    requires forall i | 0 <= i < n :: Stacks(evs, cut, ps, stacks, i)
    ensures s == StateAt(evs, ps, aggregate, n)
    ensures Ledger(s.book, n, |evs|) && Within(s.stack, n) && s.stack == stacks[n]
  {
    if n == 0 {
      s := StateAt(evs, ps, aggregate, 0);
    } else {
      var before := StackFound(evs, cut, ps, aggregate, n - 1, stacks);
      s := StackTurned(evs, cut, ps, aggregate, n - 1, before, stacks);
      StateStep(evs, ps, aggregate, n, before);
    }
  }

  lemma {:induction false} StackTurned(evs: seq<Event>, cut: int, ps: seq<Placement>, aggregate: bool, i: nat, s: State,
                                       stacks: seq<seq<nat>>)
      returns (t: State)
    requires i < |ps| == |evs| && Backward(ps) && i + 1 < |stacks| && Stacks(evs, cut, ps, stacks, i)
    requires Ledger(s.book, i, |evs|) && Within(s.stack, i) && s.stack == stacks[i]
    ensures t == Turned(evs, ps, aggregate, s, i) && t.stack == stacks[i + 1]
  {
    t := Turned(evs, ps, aggregate, s, i);
  }

  /** `states` is a run of the loop, with every event placed on the calls that the loop finds open. */
  ghost predicate Run(evs: seq<Event>, ps: seq<Placement>, aggregate: bool, cut: int, states: seq<State>) {
    && |ps| == |evs| && Backward(ps) && |states| == |evs| + 1
    && states[0].stack == [] && states[0].excluded == 0
    && forall i | 0 <= i < |evs| :: RunsTo(evs, ps, aggregate, cut, i, states[i], states[i + 1])
  }

  ghost predicate RunsTo(evs: seq<Event>, ps: seq<Placement>, aggregate: bool, cut: int, i: nat, s: State, t: State)
    requires i < |ps| == |evs| && Backward(ps)
  {
    && Ledger(s.book, i, |evs|) && Within(s.stack, i) && s.book.stats[i].dur == evs[i].dur
    && PlacedOn(evs, ps, cut, i, Popped(evs, s.stack, evs[i].ts))
    && t == Turned(evs, ps, aggregate, s, i)
  }

  function States(evs: seq<Event>, ps: seq<Placement>, aggregate: bool): seq<State>
    requires |ps| == |evs| && Backward(ps)
  {
    seq(|evs| + 1, i requires 0 <= i <= |evs| => StateAt(evs, ps, aggregate, i))
  }

  lemma {:induction false} PlaceRuns(evs: seq<Event>, cut: int, aggregate: bool)
    ensures Run(evs, Place(evs, cut), aggregate, cut, States(evs, Place(evs, cut), aggregate))
  {
    var ps := Place(evs, cut);
    forall i | 0 <= i < |evs|
      ensures RunsTo(evs, ps, aggregate, cut, i, StateAt(evs, ps, aggregate, i), StateAt(evs, ps, aggregate, i + 1))
    {
      PlaceRunsAt(evs, cut, aggregate, i);
    }
  }

  lemma {:induction false} PlaceRunsAt(evs: seq<Event>, cut: int, aggregate: bool, i: nat)
    requires i < |evs|
    ensures var ps := Place(evs, cut);
            RunsTo(evs, ps, aggregate, cut, i, StateAt(evs, ps, aggregate, i), StateAt(evs, ps, aggregate, i + 1))
  {
    StackIs(evs, cut, aggregate, i);
    DepthIsChainLength(evs, cut, i);
    StackShort(evs, cut, i);
    UnplacedStat(evs, Place(evs, cut), aggregate, i);
  }

  /** One turn of the loop over all events. */
  method Turn(nodes: seq<Node>, roots: seq<Node>, stack: array<Node?>, start: int, i: nat, aggregate: bool, depthCut: int,
              ghost evs: seq<Event>, ghost ps: seq<Placement>, ghost s: State, ghost t: State)
      returns (after: seq<Node>, top: int, excluded: int)
    requires i < |ps| == |evs| && Backward(ps) && RunsTo(evs, ps, aggregate, depthCut, i, s, t)
    requires Loaded(nodes, evs) && stack.Length == |nodes| && Mirrors(stack, start, nodes, s.stack)
    requires Built(nodes, roots, ps, s.book, i)
    modifies (set m | m in nodes)`dur, (set m | m in nodes)`count, (set m | m in nodes)`min, (set m | m in nodes)`max
    modifies (set m | m in nodes)`children, (set m | m in nodes)`depth, stack
    ensures Built(nodes, after, ps, t.book, i + 1) && Mirrors(stack, top, nodes, t.stack)
    ensures s.excluded + excluded == t.excluded
  {
    var call := nodes[i];
    top := PopEnded(stack, start, nodes, call, evs, s.stack);
    var parent := if top > -1 then stack[top] else null;
    assert Holds(call, s.book.stats[i]);
    var pushed;
    after, pushed := PlaceCall(nodes, roots, parent, call, aggregate, depthCut, evs, ps, s.book, i);
    if pushed {
      top := Push(stack, top, nodes, call, Popped(evs, s.stack, evs[i].ts), i);
      excluded := 0;
    } else {
      excluded := call.dur;
    }
  }

  /** The loop over all events: builds the lists under each node and the list of roots. */
  method Build(nodes: seq<Node>, aggregate: bool, depthCut: int,
               ghost evs: seq<Event>, ghost ps: seq<Placement>, ghost states: seq<State>)
      returns (roots: seq<Node>, excludedTime: int)
    requires Loaded(nodes, evs) && Run(evs, ps, aggregate, depthCut, states)
    requires Built(nodes, [], ps, states[0].book, 0)
    modifies (set m | m in nodes)`dur, (set m | m in nodes)`count, (set m | m in nodes)`min, (set m | m in nodes)`max
    modifies (set m | m in nodes)`children, (set m | m in nodes)`depth
    ensures Built(nodes, roots, ps, states[|evs|].book, |evs|) && excludedTime == states[|evs|].excluded
  {
    var stack := new Node?[|nodes|];
    var top := -1;
    roots, excludedTime := [], 0;
    var i := 0;
    while i < |nodes|
      invariant 0 <= i <= |nodes|
      invariant Mirrors(stack, top, nodes, states[i].stack)
      invariant Built(nodes, roots, ps, states[i].book, i)
      invariant excludedTime == states[i].excluded
    {
      assert RunsTo(evs, ps, aggregate, depthCut, i, states[i], states[i + 1]);
      var excluded;
      roots, top, excluded :=
        Turn(nodes, roots, stack, top, i, aggregate, depthCut, evs, ps, states[i], states[i + 1]);
      excludedTime := excludedTime + excluded;
      i := i + 1;
    }
  }

  // ---------- Exclusive times ----------

  function DurOf(list: seq<Node>): int
    reads (set m | m in list)`dur
  {
    if |list| == 0 then 0 else DurOf(list[..|list| - 1]) + list[|list| - 1].dur
  }

  /** The node's exclusive time is its time less its children's. */
  ghost predicate Settled(n: Node)
    reads n`exclusiveDur, n`dur, n`children, (set m | m in n.children)`dur
  {
    n.exclusiveDur == n.dur - DurOf(n.children)
  }

  /** The objects reachable from the node of the tree's root have the shape and the times of the tree. */
  ghost predicate Represents(nodes: seq<Node>, t: Tree)
    reads (set m | m in nodes)`dur, (set m | m in nodes)`children
    decreases t
  {
    && t.call < |nodes| && nodes[t.call].dur == t.dur
    && |nodes[t.call].children| == |t.kids|
    && forall k | 0 <= k < |t.kids| ::
         && Represents(nodes, t.kids[k]) && t.kids[k].call < |nodes|
         && nodes[t.call].children[k] == nodes[t.kids[k].call]
  }

  ghost predicate Lists(nodes: seq<Node>, list: seq<Node>, ts: seq<Tree>)
    reads (set m | m in nodes)`dur, (set m | m in nodes)`children
  {
    && |list| == |ts|
    && forall k | 0 <= k < |ts| :: Represents(nodes, ts[k]) && list[k] == nodes[ts[k].call]
  }

  /** Settles every node of the given trees, and unsettles none. */
  method CalculateExclusiveTimes(list: seq<Node>, ghost nodes: seq<Node>, ghost ts: seq<Tree>)
    requires Lists(nodes, list, ts)
    modifies (set m | m in nodes)`exclusiveDur
    ensures forall i: nat | i < |nodes| :: ShownIn(ts, i) || old(Settled(nodes[i])) ==> Settled(nodes[i])
    decreases ts, 1
  {
    var i := 0;
    while i < |list|
      invariant 0 <= i <= |list|
      invariant forall m: nat | m < |nodes| :: ShownIn(ts[..i], m) || old(Settled(nodes[m])) ==> Settled(nodes[m])
    {
      CalculateExclusiveTime(list[i], nodes, ts[i]);
      ShownInSnoc(ts, i);
      i := i + 1;
    }
    assert ts[..i] == ts;
  }

  method CalculateExclusiveTime(node: Node, ghost nodes: seq<Node>, ghost t: Tree)
    requires Represents(nodes, t) && node == nodes[t.call]
    modifies (set m | m in nodes)`exclusiveDur
    ensures forall i: nat | i < |nodes| :: Shows(t, i) || old(Settled(nodes[i])) ==> Settled(nodes[i])
    decreases t, 0
  {
    var total := TotalOf(node.children);
    node.exclusiveDur := node.dur - total;
    assert Settled(node);
    assert forall i: nat | i < |nodes| :: i == t.call || old(Settled(nodes[i])) ==> Settled(nodes[i]);
    if |node.children| > 0 {
      CalculateExclusiveTimes(node.children, nodes, t.kids);
    }
    ShowsRootOrKid(t);
  }

  lemma {:induction false} ShowsRootOrKid(t: Tree)
    ensures forall m: nat :: Shows(t, m) <==> m == t.call || ShownIn(t.kids, m)
  {
  }

  method TotalOf(list: seq<Node>) returns (total: int)
    ensures total == DurOf(list)
  {
    total := 0;
    var j := 0;
    while j < |list|
      invariant 0 <= j <= |list| && total == DurOf(list[..j])
    {
      total := total + list[j].dur;
      assert list[..j + 1][..j] == list[..j];
      j := j + 1;
    }
    assert list[..j] == list;
  }

  lemma {:induction false} ShownInSnoc(ts: seq<Tree>, i: nat)
    requires i < |ts|
    ensures forall m: nat :: ShownIn(ts[..i + 1], m) <==> ShownIn(ts[..i], m) || Shows(ts[i], m)
  {
    forall m: nat
      ensures ShownIn(ts[..i + 1], m) <==> ShownIn(ts[..i], m) || Shows(ts[i], m)
    {
      assert ts[..i + 1] == ts[..i] + [ts[i]];
      if ShownIn(ts[..i], m) {
        var k :| 0 <= k < i && Shows(ts[..i][k], m);
        assert Shows(ts[..i + 1][k], m);
      }
      if Shows(ts[i], m) {
        assert Shows(ts[..i + 1][i], m);
      }
    }
  }

  // ---------- The whole program ----------

  /** Loads one node per event. */
  method Load(evs: seq<Event>) returns (nodes: seq<Node>)
    ensures Loaded(nodes, evs) && fresh(set m | m in nodes)
    ensures forall i | 0 <= i < |nodes| :: nodes[i].children == [] && Holds(nodes[i], Stat(evs[i].dur, 1, evs[i].dur, evs[i].dur))
  {
    nodes := [];
    while |nodes| < |evs|
      invariant |nodes| <= |evs| && Loaded(nodes, evs[..|nodes|]) && fresh(set m | m in nodes)
      invariant forall i | 0 <= i < |nodes| :: nodes[i].children == [] && Holds(nodes[i], Stat(evs[i].dur, 1, evs[i].dur, evs[i].dur))
    {
      var node := new Node(evs[|nodes|]);
      nodes := nodes + [node];
    }
    assert evs[..|nodes|] == evs;
  }

  lemma {:induction false} LoadedIsBuilt(nodes: seq<Node>, evs: seq<Event>, ps: seq<Placement>, aggregate: bool)
    requires Loaded(nodes, evs) && |ps| == |evs| && Backward(ps)
    requires forall i | 0 <= i < |nodes| :: nodes[i].children == [] && Holds(nodes[i], Stat(evs[i].dur, 1, evs[i].dur, evs[i].dur))
    ensures Built(nodes, [], ps, BookAt(evs, ps, aggregate, 0), 0)
  {
    forall i | 0 <= i < |nodes|
      ensures ListsAt(evs, ps, aggregate, 0)[i] == []
      ensures StatsAt(evs, ps, aggregate, 0)[i] == Stat(evs[i].dur, 1, evs[i].dur, evs[i].dur)
    {
      Unplaced(evs, ps, aggregate, i, 0);
    }
  }

  /** Once everything is placed, the objects form the forest of the declarative definitions. */
  lemma {:induction false} BuiltRepresents(nodes: seq<Node>, evs: seq<Event>, ps: seq<Placement>, aggregate: bool, i: nat)
    requires i < |ps| == |evs| == |nodes| && Backward(ps)
    requires StatsOk(nodes, StatsAt(evs, ps, aggregate, |evs|)) && ChildrenOk(nodes, ListsAt(evs, ps, aggregate, |evs|))
    decreases |evs| - i
    ensures Represents(nodes, TreeOf(evs, ps, aggregate, i))
  {
    var entries := Entries(evs, ps, aggregate, Some(i), |evs|);
    assert ListsAt(evs, ps, aggregate, |evs|)[i] == entries;
    assert Holds(nodes[i], StatsAt(evs, ps, aggregate, |evs|)[i]);
    forall k | 0 <= k < |entries| ensures Represents(nodes, TreeOf(evs, ps, aggregate, entries[k])) {
      BuiltRepresents(nodes, evs, ps, aggregate, entries[k]);
    }
  }

  lemma {:induction false} DurOfKids(nodes: seq<Node>, list: seq<Node>, ts: seq<Tree>)
    requires Lists(nodes, list, ts)
    ensures DurOf(list) == TotalDur(ts)
  {
    if |ts| == 0 {
    } else {
      var n := |ts| - 1;
      DurOfKids(nodes, list[..n], ts[..n]);
      TotalDurSnoc(ts[..n], ts[n]);
      assert ts == ts[..n] + [ts[n]];
    }
  }

  lemma {:induction false} SettledIsExclusive(nodes: seq<Node>, t: Tree)
    requires Represents(nodes, t) && Settled(nodes[t.call])
    ensures nodes[t.call].exclusiveDur == Exclusive(t)
  {
    DurOfKids(nodes, nodes[t.call].children, t.kids);
  }

  /** Event `i`'s node holds its depth, its list, and the counters of the events accounted to it. */
  ghost predicate NodeOk(nodes: seq<Node>, evs: seq<Event>, ps: seq<Placement>, aggregate: bool, i: nat)
    requires i < |ps| == |evs| == |nodes| && Backward(ps)
    reads (set m | m in nodes)`dur, (set m | m in nodes)`count, (set m | m in nodes)`min, (set m | m in nodes)`max
    reads (set m | m in nodes)`children, (set m | m in nodes)`depth
  {
    && nodes[i].depth == ps[i].depth
    && nodes[i].children == Refs(nodes, Entries(evs, ps, aggregate, Some(i), |evs|))
    && Holds(nodes[i], StatOf(evs, Members(evs, ps, aggregate, i, |evs|)))
  }

  lemma {:induction false} BuiltNodes(nodes: seq<Node>, roots: seq<Node>, evs: seq<Event>, ps: seq<Placement>,
                                      aggregate: bool, i: nat)
    requires i < |ps| == |evs| == |nodes| && Backward(ps)
    requires Built(nodes, roots, ps, BookAt(evs, ps, aggregate, |evs|), |evs|)
    ensures NodeOk(nodes, evs, ps, aggregate, i)
  {
    assert Holds(nodes[i], StatsAt(evs, ps, aggregate, |evs|)[i]);
    assert nodes[i].children == Refs(nodes, ListsAt(evs, ps, aggregate, |evs|)[i]);
  }

  lemma {:induction false} RootsRepresent(nodes: seq<Node>, roots: seq<Node>, evs: seq<Event>, ps: seq<Placement>, aggregate: bool)
    requires |ps| == |evs| == |nodes| && Backward(ps)
    requires Built(nodes, roots, ps, BookAt(evs, ps, aggregate, |evs|), |evs|)
    ensures Lists(nodes, roots, Forest(evs, ps, aggregate))
  {
    var entries, ts := Entries(evs, ps, aggregate, None, |evs|), Forest(evs, ps, aggregate);
    forall k | 0 <= k < |entries| ensures Represents(nodes, ts[k]) {
      BuiltRepresents(nodes, evs, ps, aggregate, entries[k]);
    }
  }

  lemma {:induction false} SettledNodes(nodes: seq<Node>, evs: seq<Event>, ps: seq<Placement>, aggregate: bool, i: nat)
    requires i < |ps| == |evs| == |nodes| && Backward(ps) && Settled(nodes[i])
    requires StatsOk(nodes, StatsAt(evs, ps, aggregate, |evs|)) && ChildrenOk(nodes, ListsAt(evs, ps, aggregate, |evs|))
    ensures nodes[i].exclusiveDur == Exclusive(TreeOf(evs, ps, aggregate, i))
  {
    BuiltRepresents(nodes, evs, ps, aggregate, i);
    SettledIsExclusive(nodes, TreeOf(evs, ps, aggregate, i));
  }

  /** Loads the events, builds the forest and fills in the exclusive times of everything it shows. */
  method CallGraphOf(evs: seq<Event>, aggregate: bool, depthCut: int)
      returns (nodes: seq<Node>, roots: seq<Node>, excludedTime: int)
    ensures Loaded(nodes, evs)
    ensures var ps := Place(evs, depthCut);
            && roots == Refs(nodes, Entries(evs, ps, aggregate, None, |evs|))
            && (forall i: nat | i < |evs| :: NodeOk(nodes, evs, ps, aggregate, i))
            && (forall i: nat | i < |evs| && Listed(evs, ps, aggregate, i) ::
                  nodes[i].exclusiveDur == Exclusive(TreeOf(evs, ps, aggregate, i)))
            && excludedTime == ExcludedTime(evs, ps, |evs|)
  {
    nodes := Load(evs);
    ghost var ps := Place(evs, depthCut);
    LoadedIsBuilt(nodes, evs, ps, aggregate);
    PlaceRuns(evs, depthCut, aggregate);
    BookIs(evs, ps, aggregate, 0);
    roots, excludedTime := Build(nodes, aggregate, depthCut, evs, ps, States(evs, ps, aggregate));
    BookIs(evs, ps, aggregate, |evs|);
    ExcludedIs(evs, ps, aggregate, |evs|);
    Finish(nodes, roots, evs, ps, aggregate);
  }

  method Finish(nodes: seq<Node>, roots: seq<Node>, ghost evs: seq<Event>, ghost ps: seq<Placement>, ghost aggregate: bool)
    requires |ps| == |evs| == |nodes| && Backward(ps)
    requires Built(nodes, roots, ps, BookAt(evs, ps, aggregate, |evs|), |evs|)
    modifies (set m | m in nodes)`exclusiveDur
    ensures forall i: nat | i < |evs| :: NodeOk(nodes, evs, ps, aggregate, i)
    ensures forall i: nat | i < |evs| && Listed(evs, ps, aggregate, i) ::
              nodes[i].exclusiveDur == Exclusive(TreeOf(evs, ps, aggregate, i))
  {
    RootsRepresent(nodes, roots, evs, ps, aggregate);
    CalculateExclusiveTimes(roots, nodes, Forest(evs, ps, aggregate));
    AllBuilt(nodes, roots, evs, ps, aggregate);
    AllSettled(nodes, evs, ps, aggregate);
  }

  lemma {:induction false} AllBuilt(nodes: seq<Node>, roots: seq<Node>, evs: seq<Event>, ps: seq<Placement>, aggregate: bool)
    requires |ps| == |evs| == |nodes| && Backward(ps)
    requires Built(nodes, roots, ps, BookAt(evs, ps, aggregate, |evs|), |evs|)
    ensures forall i: nat | i < |evs| :: NodeOk(nodes, evs, ps, aggregate, i)
  {
    forall i: nat | i < |evs| ensures NodeOk(nodes, evs, ps, aggregate, i) {
      BuiltNodes(nodes, roots, evs, ps, aggregate, i);
    }
  }

  lemma {:induction false} AllSettled(nodes: seq<Node>, evs: seq<Event>, ps: seq<Placement>, aggregate: bool)
    requires |ps| == |evs| == |nodes| && Backward(ps)
    requires StatsOk(nodes, StatsAt(evs, ps, aggregate, |evs|)) && ChildrenOk(nodes, ListsAt(evs, ps, aggregate, |evs|))
    requires forall i: nat | i < |nodes| :: ShownIn(Forest(evs, ps, aggregate), i) ==> Settled(nodes[i])
    ensures forall i: nat | i < |evs| && Listed(evs, ps, aggregate, i) ::
              nodes[i].exclusiveDur == Exclusive(TreeOf(evs, ps, aggregate, i))
  {
    forall i: nat | i < |evs| && Listed(evs, ps, aggregate, i)
      ensures nodes[i].exclusiveDur == Exclusive(TreeOf(evs, ps, aggregate, i))
    {
      ForestShowsListed(evs, ps, aggregate, i);
      assert ShownIn(Forest(evs, ps, aggregate), i);
      SettledNodes(nodes, evs, ps, aggregate, i);
    }
  }
}
