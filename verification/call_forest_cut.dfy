/** What the depth cut of tools/callgraph_vis.cpp does: exactly when it truncates the forest. */
module CallForestCut {
  import opened Common
  import opened CallForest
  import opened CallForestAggregation

  /** A cut that drops nothing. */
  function NoCut(evs: seq<Event>): int { |evs| }

  /** The depth the tool cuts at: roots survive even a negative `depth_cut`. */
  function Ceiling(cut: int): nat { if cut < 0 then 0 else cut }

  function Take<T>(s: seq<T>, m: nat): seq<T> { if |s| <= m then s else s[..m] }

  // ---------- When the cut drops the right events ----------

  /** If event `i` is deeper than the cut, it starts before its ancestor at the depth of the cut ends.
      Depth and ancestors are those without a cut. */
  ghost predicate Clear(evs: seq<Event>, cut: int, i: nat)
    requires i < |evs|
  {
    var above := Ancestors(evs, NoCut(evs), i);
    |above| > Ceiling(cut) ==> above[Ceiling(cut)] < |evs| && EndOf(evs, above[Ceiling(cut)]) > evs[i].ts
  }

  function EndOf(evs: seq<Event>, i: nat): int
    requires i < |evs|
  {
    evs[i].ts + evs[i].dur
  }

  ghost predicate AllClear(evs: seq<Event>, cut: int, n: nat)
    requires n <= |evs|
  {
    forall i | 0 <= i < n :: Clear(evs, cut, i)
  }

  /** The cut keeps the event exactly when its true depth does not exceed the cut. */
  ghost predicate RightlyKept(evs: seq<Event>, cut: int, i: nat)
    requires i < |evs|
  {
    Kept(evs, cut, i) <==> Depth(evs, NoCut(evs), i) <= Ceiling(cut)
  }

  ghost predicate AllRightlyKept(evs: seq<Event>, cut: int, n: nat)
    requires n <= |evs|
  {
    forall i | 0 <= i < n :: RightlyKept(evs, cut, i)
  }

  /** Popping commutes with taking the bottom of the stack, unless it stops above the bottom although
      the top of the bottom has ended; then it drops that too. */
  lemma {:induction false} PoppedTake(evs: seq<Event>, s: seq<nat>, t: int, m: nat)
    requires Within(s, |evs|) && m > 0
    ensures if |Popped(evs, s, t)| > m && evs[s[m - 1]].End() <= t then |Popped(evs, Take(s, m), t)| < m
            else Popped(evs, Take(s, m), t) == Take(Popped(evs, s, t), m)
  {
    if |s| > m && evs[s[|s| - 1]].End() <= t {
      var top := s[..|s| - 1];
      PoppedTake(evs, top, t, m);
      assert top[..m] == s[..m];
    }
  }

  lemma {:induction false} PushTruncated(open: seq<nat>, i: nat, cut: int)
    ensures var low := Take(open, Ceiling(cut) + 1);
            (if Survives(|low|, cut) then low + [i] else low) == Take(open + [i], Ceiling(cut) + 1)
  {
  }

  /** While the trace is clear, the stack kept under the cut is the bottom of the stack kept without. */
  lemma {:induction false} StackTruncated(evs: seq<Event>, cut: int, n: nat)
    requires n <= |evs| && AllClear(evs, cut, n)
    ensures StackAt(evs, cut, n) == Take(StackAt(evs, NoCut(evs), n), Ceiling(cut) + 1)
  {
    if n == 0 {
    } else {
      StackTruncated(evs, cut, n - 1);
      NextTruncated(evs, cut, n - 1, StackAt(evs, cut, n - 1), StackAt(evs, NoCut(evs), n - 1));
    }
  }

  lemma {:induction false} NextTruncated(evs: seq<Event>, cut: int, i: nat, low: seq<nat>, full: seq<nat>)
    requires i < |evs| && AllClear(evs, cut, i + 1)
    requires low == StackAt(evs, cut, i) && full == StackAt(evs, NoCut(evs), i) && low == Take(full, Ceiling(cut) + 1)
    ensures Next(evs, cut, low, i) == Take(Next(evs, NoCut(evs), full, i), Ceiling(cut) + 1)
  {
    StackShort(evs, NoCut(evs), i);
    ClearAt(evs, cut, i + 1, i);
    TurnTruncated(evs, cut, i, low, full, Next(evs, cut, low, i), Next(evs, NoCut(evs), full, i));
  }

  lemma {:induction false} TurnTruncated(evs: seq<Event>, cut: int, i: nat, low: seq<nat>, full: seq<nat>,
                                         lowAfter: seq<nat>, fullAfter: seq<nat>)
    requires i < |evs| && (forall k | 0 <= k < |full| :: full[k] < i) && |full| <= i
    requires OpenClear(evs, cut, Popped(evs, full, evs[i].ts), evs[i].ts)
    requires low == Take(full, Ceiling(cut) + 1)
    requires lowAfter == Next(evs, cut, low, i) && fullAfter == Next(evs, NoCut(evs), full, i)
    ensures lowAfter == Take(fullAfter, Ceiling(cut) + 1)
  {
    PoppedTake(evs, full, evs[i].ts, Ceiling(cut) + 1);
    PushTruncated(Popped(evs, full, evs[i].ts), i, cut);
  }

  ghost predicate OpenClear(evs: seq<Event>, cut: int, open: seq<nat>, t: int)
    requires Within(open, |evs|)
  {
    |open| > Ceiling(cut) ==> evs[open[Ceiling(cut)]].End() > t
  }

  lemma {:induction false} ClearIsOpen(evs: seq<Event>, cut: int, i: nat)
    requires i < |evs|
    ensures Clear(evs, cut, i) <==> OpenClear(evs, cut, Open(evs, NoCut(evs), i), evs[i].ts)
  {
    DepthIsChainLength(evs, NoCut(evs), i);
  }

  lemma {:induction false} ClearAt(evs: seq<Event>, cut: int, n: nat, i: nat)
    requires i < n <= |evs| && AllClear(evs, cut, n)
    ensures OpenClear(evs, cut, Open(evs, NoCut(evs), i), evs[i].ts)
  {
    ClearIsOpen(evs, cut, i);
  }

  lemma {:induction false} OpenTaken(evs: seq<Event>, cut: int, full: seq<nat>, t: int, open: seq<nat>, lowOpen: seq<nat>)
    requires Within(full, |evs|) && open == Popped(evs, full, t) && lowOpen == Popped(evs, Take(full, Ceiling(cut) + 1), t)
    ensures OpenClear(evs, cut, open, t) <==> (Survives(|lowOpen|, cut) <==> |open| <= Ceiling(cut))
    ensures OpenClear(evs, cut, open, t) ==> lowOpen == Take(open, Ceiling(cut) + 1)
  {
    PoppedTake(evs, full, t, Ceiling(cut) + 1);
    PoppedEnded(evs, full, t);
    if |open| > Ceiling(cut) {
      assert open[Ceiling(cut)] == full[Ceiling(cut)];
    }
  }

  /** The first event that is not clear is the first that is wrongly kept. */
  lemma {:induction false} ClearIsRightlyKept(evs: seq<Event>, cut: int, i: nat)
    requires i < |evs| && AllClear(evs, cut, i)
    ensures Clear(evs, cut, i) <==> RightlyKept(evs, cut, i)
    ensures Clear(evs, cut, i) ==> Open(evs, cut, i) == Take(Open(evs, NoCut(evs), i), Ceiling(cut) + 1)
    ensures Kept(evs, NoCut(evs), i)
  {
    StackTruncated(evs, cut, i);
    StackShort(evs, NoCut(evs), i);
    ClearIsOpen(evs, cut, i);
    OpenTaken(evs, cut, StackAt(evs, NoCut(evs), i), evs[i].ts, Open(evs, NoCut(evs), i), Open(evs, cut, i));
  }

  /** The cut keeps exactly the events that are not deeper than it if and only if every event deeper
      than the cut starts before its ancestor at the cut ends. */
  lemma {:induction false} CutRightExactly(evs: seq<Event>, cut: int, n: nat)
    requires n <= |evs|
    ensures AllRightlyKept(evs, cut, n) <==> AllClear(evs, cut, n)
  {
    if n == 0 {
    } else {
      CutRightExactly(evs, cut, n - 1);
      OneMoreEvent(evs, cut, n);
      if AllClear(evs, cut, n - 1) {
        ClearIffRightlyKept(evs, cut, n - 1);
      }
    }
  }

  lemma {:induction false} ClearIffRightlyKept(evs: seq<Event>, cut: int, i: nat)
    requires i < |evs| && AllClear(evs, cut, i)
    ensures Clear(evs, cut, i) <==> RightlyKept(evs, cut, i)
  {
    ClearIsRightlyKept(evs, cut, i);
  }

  lemma {:induction false} OneMoreEvent(evs: seq<Event>, cut: int, n: nat)
    requires 0 < n <= |evs|
    ensures AllClear(evs, cut, n) <==> AllClear(evs, cut, n - 1) && Clear(evs, cut, n - 1)
    ensures AllRightlyKept(evs, cut, n) <==> AllRightlyKept(evs, cut, n - 1) && RightlyKept(evs, cut, n - 1)
  {
  }

  /** In a clear trace the cut drops exactly the events whose true depth exceeds it, and moves no
      surviving event to another parent or depth. */
  lemma {:induction false} CutDropsExactlyTheDeep(evs: seq<Event>, cut: int, i: nat)
    requires i < |evs| && AllClear(evs, cut, |evs|)
    ensures Kept(evs, NoCut(evs), i) && RightlyKept(evs, cut, i)
    ensures Kept(evs, cut, i) ==>
              && Parent(evs, cut, i) == Parent(evs, NoCut(evs), i)
              && Depth(evs, cut, i) == Depth(evs, NoCut(evs), i)
  {
    ClearIsRightlyKept(evs, cut, i);
  }

  // ---------- The forest ----------

  /** Placement `full` keeps everything, each child one level below its parent, and `part` is what a
      cut at depth `d` leaves of it. */
  ghost predicate CutOf(part: seq<Placement>, full: seq<Placement>, d: nat) {
    && |part| == |full| && Backward(part) && Backward(full)
    && forall i | 0 <= i < |full| ::
         && full[i].kept
         && full[i].depth == (match full[i].parent case None => 0 case Some(p) => full[p].depth + 1)
         && (part[i].kept <==> full[i].depth <= d)
         && (part[i].kept ==> part[i].parent == full[i].parent)
  }

  lemma {:induction false} PlacesCut(evs: seq<Event>, cut: int)
    requires AllClear(evs, cut, |evs|)
    ensures CutOf(Place(evs, cut), Place(evs, NoCut(evs)), Ceiling(cut))
  {
    forall i | 0 <= i < |evs|
      ensures var part, full := Place(evs, cut), Place(evs, NoCut(evs));
              && full[i].kept
              && full[i].depth == (match full[i].parent case None => 0 case Some(p) => full[p].depth + 1)
              && (part[i].kept <==> full[i].depth <= Ceiling(cut))
              && (part[i].kept ==> part[i].parent == full[i].parent)
    {
      CutDropsExactlyTheDeep(evs, cut, i);
      DepthIsChainLength(evs, NoCut(evs), i);
    }
  }

  function TimeDeeperThan(evs: seq<Event>, full: seq<Placement>, d: nat, n: nat): int
    requires n <= |full| == |evs|
  {
    if n == 0 then 0
    else TimeDeeperThan(evs, full, d, n - 1) + if full[n - 1].depth > d then evs[n - 1].dur else 0
  }

  lemma {:induction false} ExcludedIsDeeper(evs: seq<Event>, part: seq<Placement>, full: seq<Placement>, d: nat, n: nat)
    requires CutOf(part, full, d) && n <= |full| == |evs|
    ensures ExcludedTime(evs, part, n) == TimeDeeperThan(evs, full, d, n)
  {
    if n == 0 {
    } else {
      ExcludedIsDeeper(evs, part, full, d, n - 1);
    }
  }

  lemma {:induction false} KidsTruncated(part: seq<Placement>, full: seq<Placement>, d: nat, owner: Option<nat>, n: nat)
    requires CutOf(part, full, d) && n <= |full|
    requires owner.Some? ==> owner.value < |full| && full[owner.value].depth <= d
    ensures Kids(part, owner, n)
         == if owner.Some? && full[owner.value].depth == d then [] else Kids(full, owner, n)
  {
    if n == 0 {
    } else {
      KidsTruncated(part, full, d, owner, n - 1);
      KidTruncated(part, full, d, owner, n - 1);
    }
  }

  lemma {:induction false} KidTruncated(part: seq<Placement>, full: seq<Placement>, d: nat, owner: Option<nat>, i: nat)
    requires CutOf(part, full, d) && i < |full|
    requires owner.Some? ==> owner.value < |full| && full[owner.value].depth <= d
    ensures IsKid(part, owner, i) <==> IsKid(full, owner, i) && !(owner.Some? && full[owner.value].depth == d)
  {
  }

  /** A tree without the nodes more than `d` levels below its root. */
  function Truncate(t: Tree, d: nat): Tree {
    Tree(t.call, t.dur,
         if d == 0 then [] else seq(|t.kids|, k requires 0 <= k < |t.kids| => Truncate(t.kids[k], d - 1)))
  }

  function TruncateAll(ts: seq<Tree>, d: nat): seq<Tree> {
    seq(|ts|, k requires 0 <= k < |ts| => Truncate(ts[k], d))
  }

  /** A list below or at the depth of the cut keeps its entries, one at that depth loses all. */
  lemma {:induction false} EntriesTruncated(evs: seq<Event>, part: seq<Placement>, full: seq<Placement>, aggregate: bool,
                                            d: nat, owner: Option<nat>)
    requires CutOf(part, full, d) && |full| == |evs|
    requires owner.Some? ==> owner.value < |full| && full[owner.value].depth <= d
    ensures Entries(evs, part, aggregate, owner, |evs|)
         == if owner.Some? && full[owner.value].depth == d then [] else Entries(evs, full, aggregate, owner, |evs|)
  {
    KidsTruncated(part, full, d, owner, |evs|);
  }

  /** An event that is not too deep keeps the events accounted to it. */
  lemma {:induction false} MembersTruncated(evs: seq<Event>, part: seq<Placement>, full: seq<Placement>, aggregate: bool,
                                            d: nat, i: nat)
    requires CutOf(part, full, d) && i < |full| == |evs| && full[i].depth <= d
    ensures Members(evs, part, aggregate, i, |evs|) == Members(evs, full, aggregate, i, |evs|)
  {
    assert part[i].parent == full[i].parent;
    KidsTruncated(part, full, d, full[i].parent, |evs|);
  }

  lemma {:induction false} TreeLevel(evs: seq<Event>, ps: seq<Placement>, aggregate: bool, i: nat)
    requires i < |ps| == |evs| && Backward(ps)
    ensures TreeOf(evs, ps, aggregate, i)
         == Tree(i, SumDur(evs, Members(evs, ps, aggregate, i, |evs|)),
                 Trees(evs, ps, aggregate, Entries(evs, ps, aggregate, Some(i), |evs|)))
  {
  }

  lemma {:induction false} EntryIsKid(evs: seq<Event>, ps: seq<Placement>, aggregate: bool, owner: Option<nat>, k: nat)
    requires |ps| == |evs| && Backward(ps) && k < |Entries(evs, ps, aggregate, owner, |evs|)|
    ensures var e := Entries(evs, ps, aggregate, owner, |evs|)[k];
            e < |evs| && IsKid(ps, owner, e)
  {
    KidsMembership(ps, owner, |evs|, Entries(evs, ps, aggregate, owner, |evs|)[k]);
  }

  lemma {:induction false} TruncateLevel(t: Tree, d: nat)
    ensures Truncate(t, d) == Tree(t.call, t.dur, if d == 0 then [] else TruncateAll(t.kids, d - 1))
  {
  }

  lemma {:induction false} TreeTruncated(evs: seq<Event>, part: seq<Placement>, full: seq<Placement>, aggregate: bool,
                                         d: nat, i: nat)
    requires CutOf(part, full, d) && i < |full| == |evs| && full[i].depth <= d
    decreases |evs| - i, 1
    ensures TreeOf(evs, part, aggregate, i) == Truncate(TreeOf(evs, full, aggregate, i), d - full[i].depth)
  {
    EntriesTruncated(evs, part, full, aggregate, d, Some(i));
    MembersTruncated(evs, part, full, aggregate, d, i);
    TreeLevel(evs, part, aggregate, i);
    TreeLevel(evs, full, aggregate, i);
    TruncateLevel(TreeOf(evs, full, aggregate, i), d - full[i].depth);
    if full[i].depth < d {
      TreesTruncated(evs, part, full, aggregate, d, i);
    }
  }

  lemma {:induction false} TreesTruncated(evs: seq<Event>, part: seq<Placement>, full: seq<Placement>, aggregate: bool,
                                          d: nat, i: nat)
    requires CutOf(part, full, d) && i < |full| == |evs| && full[i].depth < d
    decreases |evs| - i, 0
    ensures var entries := Entries(evs, full, aggregate, Some(i), |evs|);
            Trees(evs, part, aggregate, entries) == TruncateAll(Trees(evs, full, aggregate, entries), d - full[i].depth - 1)
  {
    var entries := Entries(evs, full, aggregate, Some(i), |evs|);
    forall k | 0 <= k < |entries|
      ensures TreeOf(evs, part, aggregate, entries[k])
           == Truncate(TreeOf(evs, full, aggregate, entries[k]), d - full[i].depth - 1)
    {
      EntryIsKid(evs, full, aggregate, Some(i), k);
      TreeTruncated(evs, part, full, aggregate, d, entries[k]);
    }
  }

  lemma {:induction false} ForestTruncated(evs: seq<Event>, part: seq<Placement>, full: seq<Placement>, aggregate: bool, d: nat)
    requires CutOf(part, full, d) && |full| == |evs|
    ensures Forest(evs, part, aggregate) == TruncateAll(Forest(evs, full, aggregate), d)
  {
    EntriesTruncated(evs, part, full, aggregate, d, None);
    var roots := Entries(evs, full, aggregate, None, |evs|);
    assert Entries(evs, part, aggregate, None, |evs|) == roots;
    forall k | 0 <= k < |roots|
      ensures Forest(evs, part, aggregate)[k] == Truncate(Forest(evs, full, aggregate)[k], d)
    {
      EntryIsKid(evs, full, aggregate, None, k);
      TreeTruncated(evs, part, full, aggregate, d, roots[k]);
    }
  }

  /** The placement without a cut, with the deeper events marked as dropped. */
  function Trimmed(full: seq<Placement>, d: nat): (r: seq<Placement>)
    requires Backward(full)
    ensures |r| == |full| && Backward(r)
  {
    seq(|full|, i requires 0 <= i < |full| => full[i].(kept := full[i].depth <= d))
  }

  /** Without a cut every event survives, one level below its parent. */
  lemma {:induction false} TrimmedIsCut(evs: seq<Event>, d: nat)
    ensures CutOf(Trimmed(Place(evs, NoCut(evs)), d), Place(evs, NoCut(evs)), d)
  {
    forall i | 0 <= i < |evs|
      ensures var full := Place(evs, NoCut(evs));
              full[i].kept && full[i].depth == (match full[i].parent case None => 0 case Some(p) => full[p].depth + 1)
    {
      ShallowKept(evs, NoCut(evs), i);
      DepthIsChainLength(evs, NoCut(evs), i);
    }
  }

  lemma {:induction false} TrimmedLists(evs: seq<Event>, full: seq<Placement>, d: nat, i: nat)
    requires Backward(full) && CutOf(Trimmed(full, d), full, d) && i < |full| == |evs|
    ensures Listed(evs, Trimmed(full, d), false, i) <==> full[i].depth <= d
  {
    KidsMembership(Trimmed(full, d), full[i].parent, |evs|, i);
    if full[i].parent.Some? {
      TrimmedLists(evs, full, d, full[i].parent.value);
    }
  }

  /** A truncated forest shows exactly the events that are not too deep. */
  lemma {:induction false} TruncatedShows(evs: seq<Event>, d: nat, i: nat)
    requires i < |evs|
    ensures ShownIn(TruncateAll(Forest(evs, Place(evs, NoCut(evs)), false), d), i) <==> Depth(evs, NoCut(evs), i) <= d
  {
    var full := Place(evs, NoCut(evs));
    TrimmedIsCut(evs, d);
    ForestTruncated(evs, Trimmed(full, d), full, false, d);
    ForestShowsListed(evs, Trimmed(full, d), false, i);
    TrimmedLists(evs, full, d, i);
  }

  /** The forest built under a cut is the uncut forest truncated at that depth if and only if every
      event deeper than the cut starts before its ancestor at the cut ends; and then the same is true
      with aggregation, and the excluded time is the time of precisely the deeper events. */
  lemma {:induction false} CutTruncatesForest(evs: seq<Event>, cut: int)
    ensures var part, full := Place(evs, cut), Place(evs, NoCut(evs));
            && (Forest(evs, part, false) == TruncateAll(Forest(evs, full, false), Ceiling(cut))
                <==> AllClear(evs, cut, |evs|))
            && (AllClear(evs, cut, |evs|) ==>
                  Forest(evs, part, true) == TruncateAll(Forest(evs, full, true), Ceiling(cut)))
            && (AllClear(evs, cut, |evs|) ==>
                  ExcludedTime(evs, part, |evs|) == TimeDeeperThan(evs, full, Ceiling(cut), |evs|))
  {
    if AllClear(evs, cut, |evs|) {
      PlacesCut(evs, cut);
      ForestTruncated(evs, Place(evs, cut), Place(evs, NoCut(evs)), false, Ceiling(cut));
      ForestTruncated(evs, Place(evs, cut), Place(evs, NoCut(evs)), true, Ceiling(cut));
      ExcludedIsDeeper(evs, Place(evs, cut), Place(evs, NoCut(evs)), Ceiling(cut), |evs|);
    }
    if Forest(evs, Place(evs, cut), false) == TruncateAll(Forest(evs, Place(evs, NoCut(evs)), false), Ceiling(cut)) {
      TruncatedForestIsClear(evs, cut);
    }
  }

  lemma {:induction false} TruncatedForestIsClear(evs: seq<Event>, cut: int)
    requires Forest(evs, Place(evs, cut), false) == TruncateAll(Forest(evs, Place(evs, NoCut(evs)), false), Ceiling(cut))
    ensures AllClear(evs, cut, |evs|)
  {
    forall i | 0 <= i < |evs| ensures RightlyKept(evs, cut, i) {
      TruncatedShows(evs, Ceiling(cut), i);
      ForestShowsListed(evs, Place(evs, cut), false, i);
      PlainListsAll(evs, cut, i);
    }
    CutRightExactly(evs, cut, |evs|);
  }

  // ---------- Nested traces ----------

  ghost predicate EndsShrink(evs: seq<Event>, s: seq<nat>)
    requires Within(s, |evs|)
  {
    forall j, k | 0 <= j < k < |s| :: EndsWithin(evs, s, j, k)
  }

  ghost predicate EndsWithin(evs: seq<Event>, s: seq<nat>, j: nat, k: nat)
    requires Within(s, |evs|) && j < |s| && k < |s|
  {
    evs[s[k]].End() <= evs[s[j]].End()
  }

  lemma {:induction false} PoppedEncloses(evs: seq<Event>, s: seq<nat>, i: nat)
    requires Nested(evs) && i < |evs|
    requires forall k | 0 <= k < |s| :: s[k] < i
    requires EndsShrink(evs, s)
    ensures var open := Popped(evs, s, evs[i].ts);
            EndsShrink(evs, open) && (|open| > 0 ==> evs[i].End() <= evs[open[|open| - 1]].End())
  {
    var open := Popped(evs, s, evs[i].ts);
    PoppedEnded(evs, s, evs[i].ts);
    forall j, k | 0 <= j < k < |open| ensures EndsWithin(evs, open, j, k) {
      assert EndsWithin(evs, s, j, k);
    }
    if |open| > 0 {
      assert NestedPair(evs, open[|open| - 1], i);
    }
  }

  lemma {:induction false} PushShrinks(evs: seq<Event>, open: seq<nat>, i: nat)
    requires Within(open, |evs|) && EndsShrink(evs, open) && i < |evs|
    requires |open| > 0 ==> evs[i].End() <= evs[open[|open| - 1]].End()
    ensures EndsShrink(evs, open + [i])
  {
    var s := open + [i];
    forall j, k | 0 <= j < k < |s| ensures EndsWithin(evs, s, j, k) {
      if k < |open| {
        assert EndsWithin(evs, open, j, k);
      } else if j < |open| - 1 {
        assert EndsWithin(evs, open, j, |open| - 1);
      }
    }
  }

  /** In a nested trace the calls on the stack end in the order opposite to the one they came in. */
  lemma {:induction false} StackShrinks(evs: seq<Event>, n: nat)
    requires Nested(evs) && n <= |evs|
    ensures var s := StackAt(evs, NoCut(evs), n); |s| <= n && EndsShrink(evs, s)
  {
    if n == 0 {
      assert StackAt(evs, NoCut(evs), 0) == [];
    } else {
      StackShrinks(evs, n - 1);
      TurnShrinks(evs, n - 1, StackAt(evs, NoCut(evs), n - 1), StackAt(evs, NoCut(evs), n));
    }
  }

  lemma {:induction false} TurnShrinks(evs: seq<Event>, i: nat, s: seq<nat>, t: seq<nat>)
    requires Nested(evs) && i < |evs| && (forall k | 0 <= k < |s| :: s[k] < i) && |s| <= i && EndsShrink(evs, s)
    requires t == Next(evs, NoCut(evs), s, i)
    ensures |t| <= i + 1 && EndsShrink(evs, t)
  {
    PoppedEncloses(evs, s, i);
    PushShrinks(evs, Popped(evs, s, evs[i].ts), i);
  }

  /** In a nested trace every cut truncates the forest, and excludes the time of precisely the deeper
      events. */
  lemma {:induction false} NestedIsClear(evs: seq<Event>, cut: int)
    requires Nested(evs)
    ensures AllClear(evs, cut, |evs|)
  {
    forall i | 0 <= i < |evs| ensures Clear(evs, cut, i) {
      StackShrinks(evs, i);
      PoppedEncloses(evs, StackAt(evs, NoCut(evs), i), i);
      ClearIsOpen(evs, cut, i);
      OpenShrinks(evs, cut, Open(evs, NoCut(evs), i), StackAt(evs, NoCut(evs), i), evs[i].ts);
    }
  }

  lemma {:induction false} OpenShrinks(evs: seq<Event>, cut: int, open: seq<nat>, s: seq<nat>, t: int)
    requires Within(s, |evs|) && open == Popped(evs, s, t) && EndsShrink(evs, open)
    ensures OpenClear(evs, cut, open, t)
  {
    PoppedEnded(evs, s, t);
    if |open| - 1 > Ceiling(cut) {
      assert EndsWithin(evs, open, Ceiling(cut), |open| - 1);
    }
  }

  function CrossedTrace(): seq<Event> { [Event("a", 0, 4), Event("b", 1, 9), Event("c", 5, 2)] }

  /** A sorted trace of crossing calls: `c` has true depth 2, but once `b` is dropped nothing covers it.
      It becomes a root, and its time is not excluded.  At depth 1 the same trace is truncated. */
  lemma {:induction false} CrossingPromotes()
    ensures var evs := CrossedTrace();
            && SortedByStart(evs) && !Nested(evs)
            && Depth(evs, NoCut(evs), 2) == 2
            && Kept(evs, 0, 2) && Parent(evs, 0, 2) == None
            && !AllClear(evs, 0, 3) && AllClear(evs, 1, 3)
  {
    CrossedOrder();
    CrossedUncut(CrossedTrace(), 3);
    CrossedCut(CrossedTrace(), 0);
    CrossedUnclear(CrossedTrace(), 3);
    CrossedClear(CrossedTrace(), 3);
  }

  lemma {:induction false} CrossedCut(evs: seq<Event>, cut: int)
    requires evs == CrossedTrace() && cut == 0
    ensures Kept(evs, cut, 2) && Parent(evs, cut, 2) == None
  {
    CrossedOrder();
    ShallowKept(evs, cut, 0);
    ParentFound(evs, cut, 0, 1);
    DepthIsChainLength(evs, cut, 1);
    ParentIsLatestCover(evs, cut, 2);
    assert !Covers(evs, cut, 0, 2) && !Covers(evs, cut, 1, 2);
    DepthIsChainLength(evs, cut, 2);
  }

  lemma {:induction false} CrossedUnclear(evs: seq<Event>, uncut: int)
    requires evs == CrossedTrace() && uncut == NoCut(evs)
    ensures !AllClear(evs, 0, 3)
  {
    CrossedUncut(evs, uncut);
    ClearIs(evs, 0, 2, [0, 1]);
    assert !Clear(evs, 0, 2);
  }

  lemma {:induction false} CrossedClear(evs: seq<Event>, uncut: int)
    requires evs == CrossedTrace() && uncut == NoCut(evs)
    ensures AllClear(evs, 1, 3)
  {
    CrossedUncut(evs, uncut);
    forall i | 0 <= i < 3 ensures Clear(evs, 1, i) {
      if i == 0 {
        ClearIs(evs, 1, 0, []);
      } else if i == 1 {
        ClearIs(evs, 1, 1, [0]);
      } else {
        ClearIs(evs, 1, 2, [0, 1]);
      }
    }
  }

  lemma {:induction false} ClearIs(evs: seq<Event>, cut: int, i: nat, above: seq<nat>)
    requires i < |evs| && above == Ancestors(evs, NoCut(evs), i)
    ensures Clear(evs, cut, i)
       <==> (|above| > Ceiling(cut) ==> above[Ceiling(cut)] < |evs| && evs[above[Ceiling(cut)]].End() > evs[i].ts)
  {
  }

  lemma {:induction false} CrossedOrder()
    ensures SortedByStart(CrossedTrace()) && !Nested(CrossedTrace())
  {
    assert !NestedPair(CrossedTrace(), 0, 1);
  }

  lemma {:induction false} CrossedUncut(evs: seq<Event>, cut: int)
    requires evs == CrossedTrace() && cut == 3
    ensures Ancestors(evs, cut, 0) == [] && Ancestors(evs, cut, 1) == [0] && Ancestors(evs, cut, 2) == [0, 1]
    ensures Depth(evs, cut, 2) == 2
  {
    CrossedOrder();
    ShallowKept(evs, cut, 0);
    ShallowKept(evs, cut, 1);
    DepthIsChainLength(evs, cut, 0);
    ParentFound(evs, cut, 0, 1);
    ParentFound(evs, cut, 1, 2);
    DepthIsChainLength(evs, cut, 2);
  }
}
