/** The call-forest builder of tools/callgraph_vis.cpp, as functions on the event list.

    The tool keeps a stack of open calls.  Event `i` first pops every call that has ended, and is
    then either a child of the call left on top, a root, or (when deeper than the cut) dropped.
    `StackAt` and `Open` are that stack; everything a reader cares about (parents, depths, child
    lists, aggregated entries, dropped time) is a function of it.  The theorems relate the stack to
    statements that never mention one.
 */
module CallForest {
  import opened Common

  datatype Event = Event(name: string, ts: int, dur: int) {
    function End(): int { ts + dur }
  }

  // ---------- The stack ----------

  /** Drops from the top of the stack the calls that have ended by time `t`. */
  function Popped(evs: seq<Event>, stack: seq<nat>, t: int): (r: seq<nat>)
    requires forall k | 0 <= k < |stack| :: stack[k] < |evs|
    ensures r <= stack
  {
    if |stack| == 0 || evs[stack[|stack| - 1]].End() > t then stack
    else Popped(evs, stack[..|stack| - 1], t)
  }

  /** What popping stops at has not ended, and everything it drops has. */
  lemma {:induction false} PoppedEnded(evs: seq<Event>, stack: seq<nat>, t: int)
    requires forall k | 0 <= k < |stack| :: stack[k] < |evs|
    ensures var r := Popped(evs, stack, t);
            && (|r| > 0 ==> evs[r[|r| - 1]].End() > t)
            && forall k | |r| <= k < |stack| :: evs[stack[k]].End() <= t
  {
    if |stack| > 0 && evs[stack[|stack| - 1]].End() <= t {
      PoppedEnded(evs, stack[..|stack| - 1], t);
    }
  }

  /** The stack before event `n` is looked at. */
  function StackAt(evs: seq<Event>, cut: int, n: nat): (r: seq<nat>)
    requires n <= |evs|
    ensures forall k | 0 <= k < |r| :: r[k] < n
  {
    if n == 0 then [] else Next(evs, cut, StackAt(evs, cut, n - 1), n - 1)
  }

  /** One turn of the loop: pop what has ended, then push the event unless the cut drops it. */
  function Next(evs: seq<Event>, cut: int, stack: seq<nat>, i: nat): (r: seq<nat>)
    requires i < |evs| && forall k | 0 <= k < |stack| :: stack[k] < i
    ensures forall k | 0 <= k < |r| :: r[k] <= i
  {
    var open := Popped(evs, stack, evs[i].ts);
    if Survives(|open|, cut) then open + [i] else open
  }

  /** The calls still open when event `i` is placed, outermost first. */
  function Open(evs: seq<Event>, cut: int, i: nat): (r: seq<nat>)
    requires i < |evs|
    ensures forall k | 0 <= k < |r| :: r[k] < i
  {
    Popped(evs, StackAt(evs, cut, i), evs[i].ts)
  }

  /** A root survives whatever the cut, any other event when it is no deeper than the cut. */
  predicate Survives(depth: nat, cut: int) {
    depth == 0 || depth <= cut
  }

  predicate Kept(evs: seq<Event>, cut: int, i: nat)
    requires i < |evs|
  {
    Survives(Depth(evs, cut, i), cut)
  }

  function Depth(evs: seq<Event>, cut: int, i: nat): nat
    requires i < |evs|
  {
    |Open(evs, cut, i)|
  }

  function Parent(evs: seq<Event>, cut: int, i: nat): (r: Option<nat>)
    requires i < |evs|
    ensures r.Some? ==> r.value < i
  {
    var open := Open(evs, cut, i);
    if |open| == 0 then None else Some(open[|open| - 1])
  }

  // ---------- Parents and depths, without a stack ----------

  predicate SortedByStart(evs: seq<Event>) {
    forall i, j | 0 <= i < j < |evs| :: evs[i].ts <= evs[j].ts
  }

  /** Properly nested: of two events the later one starts after the other's end or ends within it. */
  predicate Nested(evs: seq<Event>) {
    forall i, j | 0 <= i < j < |evs| :: NestedPair(evs, i, j)
  }

  predicate NestedPair(evs: seq<Event>, i: nat, j: nat)
    requires i < |evs| && j < |evs|
  {
    evs[i].End() <= evs[j].ts || evs[j].End() <= evs[i].End()
  }

  /** `j` is an earlier surviving event that is still running when `i` starts. */
  predicate Covers(evs: seq<Event>, cut: int, j: nat, i: nat)
    requires i < |evs|
  {
    j < i && Kept(evs, cut, j) && evs[j].ts + evs[j].dur > evs[i].ts
  }

  predicate LatestCover(evs: seq<Event>, cut: int, p: nat, i: nat)
    requires i < |evs|
  {
    Covers(evs, cut, p, i) && forall q | p < q < i :: !Covers(evs, cut, q, i)
  }

  /** The chain of parents of `i`, outermost first. */
  function Ancestors(evs: seq<Event>, cut: int, i: nat): seq<nat>
    requires i < |evs|
  {
    match Parent(evs, cut, i)
    case None => []
    case Some(p) => Ancestors(evs, cut, p) + [p]
  }

  /** Call `s[k]` survived the cut and was placed on top of exactly the calls below it. */
  ghost predicate Layer(evs: seq<Event>, cut: int, s: seq<nat>, k: nat)
    requires k < |s|
  {
    s[k] < |evs| && Kept(evs, cut, s[k]) && Open(evs, cut, s[k]) == s[..k]
  }

  ghost predicate Layered(evs: seq<Event>, cut: int, s: seq<nat>) {
    forall k | 0 <= k < |s| :: Layer(evs, cut, s, k)
  }

  lemma {:induction false} StackLayers(evs: seq<Event>, cut: int, n: nat)
    requires n <= |evs|
    decreases n, 0
    ensures Layered(evs, cut, StackAt(evs, cut, n))
  {
    if n > 0 {
      OpenLayers(evs, cut, n - 1);
      LayersPushed(evs, cut, Open(evs, cut, n - 1), n - 1);
    }
  }

  lemma {:induction false} LayersPushed(evs: seq<Event>, cut: int, open: seq<nat>, i: nat)
    requires i < |evs| && open == Open(evs, cut, i) && Layered(evs, cut, open)
    ensures Layered(evs, cut, StackAt(evs, cut, i + 1))
  {
    StackStep(evs, cut, i);
    if Kept(evs, cut, i) {
      LayerPushed(evs, cut, open, i);
    } else {
      assert open + [] == open;
    }
  }

  lemma {:induction false} LayerPushed(evs: seq<Event>, cut: int, open: seq<nat>, i: nat)
    requires i < |evs| && Kept(evs, cut, i) && open == Open(evs, cut, i) && Layered(evs, cut, open)
    ensures Layered(evs, cut, open + [i])
  {
    var s := open + [i];
    forall k | 0 <= k < |s| ensures Layer(evs, cut, s, k) {
      if k < |open| {
        assert Layer(evs, cut, open, k);
        assert s[k] == open[k] && s[..k] == open[..k];
      } else {
        assert s[k] == i && s[..k] == open;
      }
    }
  }

  lemma {:induction false} OpenLayers(evs: seq<Event>, cut: int, i: nat)
    requires i < |evs|
    decreases i, 1
    ensures Layered(evs, cut, Open(evs, cut, i))
  {
    StackLayers(evs, cut, i);
    var s, open := StackAt(evs, cut, i), Open(evs, cut, i);
    forall k | 0 <= k < |open| ensures Layer(evs, cut, open, k) {
      assert Layer(evs, cut, s, k);
      assert s[k] == open[k] && s[..k] == open[..k];
    }
  }

  /** The open calls are exactly the chain of parents, so the depth is the length of that chain and
      one more than the parent's depth. */
  lemma {:induction false} DepthIsChainLength(evs: seq<Event>, cut: int, i: nat)
    requires i < |evs|
    ensures Open(evs, cut, i) == Ancestors(evs, cut, i)
    ensures Depth(evs, cut, i) == |Ancestors(evs, cut, i)|
    ensures match Parent(evs, cut, i)
            case None => Depth(evs, cut, i) == 0
            case Some(p) => Depth(evs, cut, i) == Depth(evs, cut, p) + 1 && Kept(evs, cut, p)
  {
    var open := Open(evs, cut, i);
    if |open| == 0 {
      assert open == [];
    } else {
      var p := open[|open| - 1];
      OpenLayers(evs, cut, i);
      assert Layer(evs, cut, open, |open| - 1);
      DepthIsChainLength(evs, cut, p);
      assert open == open[..|open| - 1] + [p];
    }
  }

  /** Placing event `i` keeps the open calls and, when it survives, puts `i` on top of them. */
  lemma {:induction false} StackStep(evs: seq<Event>, cut: int, i: nat)
    requires i < |evs|
    ensures StackAt(evs, cut, i + 1) == Open(evs, cut, i) + if Kept(evs, cut, i) then [i] else []
    ensures forall j :: j in StackAt(evs, cut, i + 1) <==> j in Open(evs, cut, i) || (j == i && Kept(evs, cut, i))
  {
  }

  lemma {:induction false} StackShort(evs: seq<Event>, cut: int, n: nat)
    requires n <= |evs|
    ensures |StackAt(evs, cut, n)| <= n
  {
    if n == 0 {
    } else {
      StackShort(evs, cut, n - 1);
    }
  }

  /** No surviving call is popped before it has ended. */
  lemma {:induction false} RunningCallsStay(evs: seq<Event>, cut: int, j: nat, n: nat)
    requires j < n <= |evs| && j in StackAt(evs, cut, j + 1)
    requires forall k | j < k < n :: evs[j].End() > evs[k].ts
    ensures j in StackAt(evs, cut, n)
  {
    if j + 1 < n {
      RunningCallsStay(evs, cut, j, n - 1);
      RunningCallStays(evs, cut, n - 1, j);
    }
  }

  lemma {:induction false} RunningCallStays(evs: seq<Event>, cut: int, i: nat, j: nat)
    requires i < |evs|
    requires j in StackAt(evs, cut, i) && evs[j].End() > evs[i].ts
    ensures j in StackAt(evs, cut, i + 1)
  {
    RunningCallsSurvivePopping(evs, StackAt(evs, cut, i), evs[i].ts, j);
    StackStep(evs, cut, i);
  }

  lemma {:induction false} RunningCallsSurvivePopping(evs: seq<Event>, stack: seq<nat>, t: int, j: nat)
    requires forall k | 0 <= k < |stack| :: stack[k] < |evs|
    requires j in stack && evs[j].End() > t
    ensures j in Popped(evs, stack, t)
  {
    PoppedEnded(evs, stack, t);
    var k :| 0 <= k < |stack| && stack[k] == j;
    assert k < |Popped(evs, stack, t)|;
  }

  predicate Increasing(s: seq<nat>) {
    forall j, k | 0 <= j < k < |s| :: s[j] < s[k]
  }

  /** The stack is in order of arrival. */
  lemma {:induction false} StackIncreases(evs: seq<Event>, cut: int, n: nat)
    requires n <= |evs|
    ensures Increasing(StackAt(evs, cut, n))
  {
    if n == 0 {
    } else {
      StackIncreases(evs, cut, n - 1);
      StackStep(evs, cut, n - 1);
    }
  }

  lemma {:induction false} CoversAreOpen(evs: seq<Event>, cut: int, i: nat, j: nat)
    requires SortedByStart(evs) && i < |evs| && Covers(evs, cut, j, i)
    ensures j in Open(evs, cut, i)
  {
    StackStep(evs, cut, j);
    RunningCallsStay(evs, cut, j, i);
    RunningCallsSurvivePopping(evs, StackAt(evs, cut, i), evs[i].ts, j);
  }

  lemma {:induction false} TopCovers(evs: seq<Event>, cut: int, i: nat)
    requires i < |evs| && |Open(evs, cut, i)| > 0
    ensures var r := Open(evs, cut, i); Covers(evs, cut, r[|r| - 1], i)
  {
    var r := Open(evs, cut, i);
    OpenLayers(evs, cut, i);
    PoppedEnded(evs, StackAt(evs, cut, i), evs[i].ts);
    assert Layer(evs, cut, r, |r| - 1);
  }

  lemma {:induction false} TopIsLatest(r: seq<nat>, j: nat)
    requires Increasing(r) && j in r
    ensures |r| > 0 && j <= r[|r| - 1]
  {
  }

  /** For input sorted by start time the stack finds exactly the latest earlier surviving event that
      is still running, nested or not; an event without one is a root. */
  lemma {:induction false} ParentIsLatestCover(evs: seq<Event>, cut: int, i: nat)
    requires SortedByStart(evs) && i < |evs|
    ensures forall p: nat :: Parent(evs, cut, i) == Some(p) <==> LatestCover(evs, cut, p, i)
    ensures Parent(evs, cut, i) == None <==> forall j: nat | j < i :: !Covers(evs, cut, j, i)
  {
    var r := Open(evs, cut, i);
    StackIncreases(evs, cut, i);
    assert Increasing(r);
    forall j: nat | j < i && Covers(evs, cut, j, i) ensures |r| > 0 && j <= r[|r| - 1] {
      CoversAreOpen(evs, cut, i, j);
      TopIsLatest(r, j);
    }
    if |r| > 0 {
      TopCovers(evs, cut, i);
      OnlyLatest(evs, cut, r[|r| - 1], i);
    }
  }

  lemma {:induction false} OnlyLatest(evs: seq<Event>, cut: int, p: nat, i: nat)
    requires i < |evs| && Covers(evs, cut, p, i) && forall j: nat | j < i && Covers(evs, cut, j, i) :: j <= p
    ensures LatestCover(evs, cut, p, i) && forall q: nat | LatestCover(evs, cut, q, i) :: q == p
  {
  }

  // ---------- Child lists, aggregated entries and trees ----------

  /** Where the stack put an event. */
  datatype Placement = Placement(parent: Option<nat>, depth: nat, kept: bool)

  function Place(evs: seq<Event>, cut: int): (ps: seq<Placement>)
    ensures |ps| == |evs| && Backward(ps)
  {
    seq(|evs|, i requires 0 <= i < |evs| =>
      Placement(Parent(evs, cut, i), Depth(evs, cut, i), Kept(evs, cut, i)))
  }

  /** Parents come before their children. */
  predicate Backward(ps: seq<Placement>) {
    forall i | 0 <= i < |ps| && ps[i].parent.Some? :: ps[i].parent.value < i
  }

  predicate IsKid(ps: seq<Placement>, owner: Option<nat>, i: nat)
    requires i < |ps|
  {
    ps[i].kept && ps[i].parent == owner
  }

  /** The surviving events among the first `n` whose parent is `owner` (None: the roots), in order. */
  function Kids(ps: seq<Placement>, owner: Option<nat>, n: nat): (r: seq<nat>)
    requires n <= |ps| && Backward(ps)
    ensures forall k | 0 <= k < |r| :: r[k] < n && (owner.Some? ==> owner.value < r[k])
  {
    if n == 0 then []
    else if IsKid(ps, owner, n - 1) then Kids(ps, owner, n - 1) + [n - 1]
    else Kids(ps, owner, n - 1)
  }

  lemma {:induction false} KidsMembership(ps: seq<Placement>, owner: Option<nat>, n: nat, i: nat)
    requires n <= |ps| && Backward(ps)
    ensures i in Kids(ps, owner, n) <==> i < n && IsKid(ps, owner, i)
  {
    if n == 0 {
    } else {
      KidsMembership(ps, owner, n - 1, i);
    }
  }

  predicate Within(ks: seq<nat>, n: nat) {
    forall k | 0 <= k < |ks| :: ks[k] < n
  }

  predicate HasName(evs: seq<Event>, ks: seq<nat>, name: string)
    requires Within(ks, |evs|)
  {
    exists k | 0 <= k < |ks| :: evs[ks[k]].name == name
  }

  /** The first event of every name in the list. */
  function Firsts(evs: seq<Event>, ks: seq<nat>): (r: seq<nat>)
    requires Within(ks, |evs|)
    ensures forall k | 0 <= k < |r| :: r[k] in ks
  {
    if |ks| == 0 then []
    else
      var before, last := Firsts(evs, ks[..|ks| - 1]), ks[|ks| - 1];
      if HasName(evs, before, evs[last].name) then before else before + [last]
  }

  function WithName(evs: seq<Event>, ks: seq<nat>, name: string): (r: seq<nat>)
    requires Within(ks, |evs|)
    ensures Within(r, |evs|)
  {
    if |ks| == 0 then []
    else
      var before, last := WithName(evs, ks[..|ks| - 1], name), ks[|ks| - 1];
      if evs[last].name == name then before + [last] else before
  }

  /** What is listed under `owner`: all its kids, or one entry per name when aggregating. */
  function Entries(evs: seq<Event>, ps: seq<Placement>, aggregate: bool, owner: Option<nat>, n: nat): (r: seq<nat>)
    requires n <= |ps| == |evs| && Backward(ps)
    ensures forall k | 0 <= k < |r| :: r[k] < n && (owner.Some? ==> owner.value < r[k])
  {
    var kids := Kids(ps, owner, n);
    if aggregate then Firsts(evs, kids) else kids
  }

  /** The events whose time is accounted to event `i` once `n` events have been placed: the kids of
      its parent with its name when it stands for them, and otherwise only itself. */
  function Members(evs: seq<Event>, ps: seq<Placement>, aggregate: bool, i: nat, n: nat): (r: seq<nat>)
    requires n <= |ps| == |evs| && Backward(ps) && i < |evs|
    ensures Within(r, |evs|)
  {
    var kids := Kids(ps, ps[i].parent, n);
    if aggregate && i in Firsts(evs, kids) then WithName(evs, kids, evs[i].name) else [i]
  }

  function SumDur(evs: seq<Event>, ks: seq<nat>): int
    requires Within(ks, |evs|)
  {
    if |ks| == 0 then 0 else SumDur(evs, ks[..|ks| - 1]) + evs[ks[|ks| - 1]].dur
  }

  /** The total time of the events dropped by the cut among the first `n`. */
  function ExcludedTime(evs: seq<Event>, ps: seq<Placement>, n: nat): int
    requires n <= |ps| == |evs|
  {
    if n == 0 then 0
    else ExcludedTime(evs, ps, n - 1) + if ps[n - 1].kept then 0 else evs[n - 1].dur
  }

  /** A finished call tree: the event a node stands for, the time printed for it, its entries. */
  datatype Tree = Tree(call: nat, dur: int, kids: seq<Tree>)

  function TreeOf(evs: seq<Event>, ps: seq<Placement>, aggregate: bool, i: nat): Tree
    requires i < |ps| == |evs| && Backward(ps)
    decreases |evs| - i
  {
    var entries := Entries(evs, ps, aggregate, Some(i), |evs|);
    Tree(i, SumDur(evs, Members(evs, ps, aggregate, i, |evs|)),
         seq(|entries|, k requires 0 <= k < |entries| => TreeOf(evs, ps, aggregate, entries[k])))
  }

  function Forest(evs: seq<Event>, ps: seq<Placement>, aggregate: bool): seq<Tree>
    requires |ps| == |evs| && Backward(ps)
  {
    var entries := Entries(evs, ps, aggregate, None, |evs|);
    seq(|entries|, k requires 0 <= k < |entries| => TreeOf(evs, ps, aggregate, entries[k]))
  }

  function Trees(evs: seq<Event>, ps: seq<Placement>, aggregate: bool, ks: seq<nat>): seq<Tree>
    requires |ps| == |evs| && Backward(ps) && Within(ks, |evs|)
  {
    seq(|ks|, k requires 0 <= k < |ks| => TreeOf(evs, ps, aggregate, ks[k]))
  }
}
