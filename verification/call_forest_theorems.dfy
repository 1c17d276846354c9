/** Theorems about the call forest of tools/callgraph_vis.cpp. */
module CallForestTheorems {
  import opened Common
  import opened CallForest
  import opened CallForestAggregation

  // ---------- Siblings ----------

  /** Two surviving events with the same parent (or two roots) never overlap. */
  lemma {:induction false} SiblingsDisjoint(evs: seq<Event>, cut: int, i: nat, j: nat)
    requires SortedByStart(evs) && i < j < |evs|
    requires Kept(evs, cut, i) && Parent(evs, cut, i) == Parent(evs, cut, j)
    ensures evs[i].ts + evs[i].dur <= evs[j].ts
  {
    ParentIsLatestCover(evs, cut, j);
    match Parent(evs, cut, j)
    case None => assert !Covers(evs, cut, i, j);
    case Some(p) =>
      assert LatestCover(evs, cut, p, j) && Parent(evs, cut, i) == Some(p);
      assert !Covers(evs, cut, i, j);
  }

  // ---------- Exclusive time ----------

  function TotalDur(ts: seq<Tree>): int {
    if |ts| == 0 then 0 else ts[0].dur + TotalDur(ts[1..])
  }

  /** What `calculate_exclusive_times` stores in a node. */
  function Exclusive(t: Tree): int { t.dur - TotalDur(t.kids) }

  function TotalExclusive(ts: seq<Tree>): int {
    if |ts| == 0 then 0 else Exclusive(ts[0]) + TotalExclusive(ts[0].kids) + TotalExclusive(ts[1..])
  }

  /** Over every forest, however built, the exclusive times add up to the times of the roots. */
  lemma {:induction false} ExclusiveConserved(ts: seq<Tree>)
    ensures TotalExclusive(ts) == TotalDur(ts)
  {
    if |ts| == 0 {
    } else {
      ExclusiveConserved(ts[0].kids);
      ExclusiveConserved(ts[1..]);
    }
  }

  lemma {:induction false} SumDurSnoc(evs: seq<Event>, ks: seq<nat>, i: nat)
    requires Within(ks, |evs|) && i < |evs|
    ensures SumDur(evs, ks + [i]) == SumDur(evs, ks) + evs[i].dur
  {
    assert (ks + [i])[..|ks|] == ks;
  }

  lemma {:induction false} PlainTreesDur(evs: seq<Event>, ps: seq<Placement>, ks: seq<nat>)
    requires |ps| == |evs| && Backward(ps) && Within(ks, |evs|)
    ensures TotalDur(Trees(evs, ps, false, ks)) == SumDur(evs, ks)
  {
    if |ks| == 0 {
    } else {
      var init, last := ks[..|ks| - 1], ks[|ks| - 1];
      PlainTreesDur(evs, ps, init);
      assert Trees(evs, ps, false, ks) == Trees(evs, ps, false, init) + [TreeOf(evs, ps, false, last)];
      TotalDurSnoc(Trees(evs, ps, false, init), TreeOf(evs, ps, false, last));
      SumDurSnoc(evs, [], last);
      assert [] + [last] == [last] == Members(evs, ps, false, last, |evs|);
    }
  }

  lemma {:induction false} TotalDurSnoc(ts: seq<Tree>, t: Tree)
    ensures TotalDur(ts + [t]) == TotalDur(ts) + t.dur
  {
    if |ts| == 0 {
    } else {
      TotalDurSnoc(ts[1..], t);
      assert (ts + [t])[1..] == ts[1..] + [t];
    }
  }

  /** Kids run inside their parent, siblings one after the other. */
  ghost predicate RunInside(evs: seq<Event>, ps: seq<Placement>)
    requires |ps| == |evs| && Backward(ps)
  {
    && (forall i | 0 <= i < |ps| :: InsideParent(evs, ps, i))
    && (forall i, j | 0 <= i < j < |ps| :: AfterSibling(evs, ps, i, j))
  }

  ghost predicate InsideParent(evs: seq<Event>, ps: seq<Placement>, i: nat)
    requires i < |ps| == |evs| && Backward(ps)
  {
    ps[i].kept && ps[i].parent.Some? ==>
      var p := ps[i].parent.value; evs[p].ts <= evs[i].ts && evs[i].End() <= evs[p].End()
  }

  ghost predicate AfterSibling(evs: seq<Event>, ps: seq<Placement>, i: nat, j: nat)
    requires i < j < |ps| == |evs|
  {
    ps[i].kept && ps[j].kept && ps[i].parent == ps[j].parent ==> evs[i].End() <= evs[j].ts
  }

  lemma {:induction false} NestedRunsInside(evs: seq<Event>, cut: int)
    requires SortedByStart(evs) && Nested(evs)
    ensures RunInside(evs, Place(evs, cut))
  {
    var ps := Place(evs, cut);
    forall i | 0 <= i < |ps| ensures InsideParent(evs, ps, i) {
      if ps[i].kept && ps[i].parent.Some? {
        ParentIsLatestCover(evs, cut, i);
        assert LatestCover(evs, cut, ps[i].parent.value, i);
        assert NestedPair(evs, ps[i].parent.value, i);
      }
    }
    forall i, j | 0 <= i < j < |ps| ensures AfterSibling(evs, ps, i, j) {
      if ps[i].kept && ps[j].kept && ps[i].parent == ps[j].parent {
        SiblingsDisjoint(evs, cut, i, j);
      }
    }
  }

  lemma {:induction false} KidsFit(evs: seq<Event>, ps: seq<Placement>, p: nat, n: nat)
    requires |ps| == |evs| && Backward(ps) && RunInside(evs, ps) && p < |evs| && n <= |evs|
    ensures FitInto(evs, Kids(ps, Some(p), n), p)
  {
    if n == 0 {
    } else {
      KidsFit(evs, ps, p, n - 1);
      if IsKid(ps, Some(p), n - 1) {
        var before := Kids(ps, Some(p), n - 1);
        assert InsideParent(evs, ps, n - 1);
        if |before| > 0 {
          KidsMembership(ps, Some(p), n - 1, before[|before| - 1]);
          assert AfterSibling(evs, ps, before[|before| - 1], n - 1);
        }
        OneMoreFits(evs, before, p, n - 1);
      }
    }
  }

  ghost predicate FitInto(evs: seq<Event>, ks: seq<nat>, p: nat)
    requires Within(ks, |evs|) && p < |evs|
  {
    |ks| > 0 ==> var last := evs[ks[|ks| - 1]].End(); SumDur(evs, ks) <= last - evs[p].ts && last <= evs[p].End()
  }

  lemma {:induction false} OneMoreFits(evs: seq<Event>, before: seq<nat>, p: nat, i: nat)
    requires Within(before, |evs|) && p < |evs| && i < |evs| && FitInto(evs, before, p)
    requires evs[p].ts <= evs[i].ts && evs[i].End() <= evs[p].End()
    requires |before| > 0 ==> evs[before[|before| - 1]].End() <= evs[i].ts
    ensures FitInto(evs, before + [i], p)
  {
    SumDurSnoc(evs, before, i);
  }

  /** In a nested sorted trace no exclusive time is negative, unless the event itself has a negative
      duration and no kids. */
  lemma {:induction false} ExclusiveNonNegative(evs: seq<Event>, cut: int, i: nat)
    requires SortedByStart(evs) && Nested(evs) && i < |evs|
    ensures var t := TreeOf(evs, Place(evs, cut), false, i);
            evs[i].dur >= 0 || t.kids != [] ==> Exclusive(t) >= 0
  {
    NestedRunsInside(evs, cut);
    ExclusiveFits(evs, Place(evs, cut), i);
  }

  lemma {:induction false} ExclusiveFits(evs: seq<Event>, ps: seq<Placement>, i: nat)
    requires |ps| == |evs| && Backward(ps) && RunInside(evs, ps) && i < |evs|
    ensures var t := TreeOf(evs, ps, false, i);
            evs[i].dur >= 0 || t.kids != [] ==> Exclusive(t) >= 0
  {
    var ks := Kids(ps, Some(i), |evs|);
    KidsFit(evs, ps, i, |evs|);
    PlainTreesDur(evs, ps, ks);
    assert TreeOf(evs, ps, false, i).kids == Trees(evs, ps, false, ks);
    SumDurSnoc(evs, [], i);
    assert [] + [i] == [i] == Members(evs, ps, false, i, |evs|);
  }

  lemma {:induction false} EntryTreeDur(evs: seq<Event>, ps: seq<Placement>, owner: Option<nat>, e: nat)
    requires |ps| == |evs| && Backward(ps) && e in Entries(evs, ps, true, owner, |evs|)
    ensures e < |evs| && TreeOf(evs, ps, true, e).dur == SumDur(evs, WithName(evs, Kids(ps, owner, |evs|), evs[e].name))
  {
    EntriesAreKids(evs, ps, true, owner, e);
  }

  ghost predicate PrintsMerged(evs: seq<Event>, t: Tree, e: nat, ks: seq<nat>)
    requires Within(ks, |evs|) && e < |evs|
  {
    t.dur == SumDur(evs, WithName(evs, ks, evs[e].name))
  }

  lemma {:induction false} MergedTreesDur(evs: seq<Event>, ts: seq<Tree>, es: seq<nat>, ks: seq<nat>)
    requires Within(ks, |evs|) && Within(es, |evs|) && |ts| == |es|
    requires forall k | 0 <= k < |es| :: PrintsMerged(evs, ts[k], es[k], ks)
    ensures TotalDur(ts) == EntriesTime(evs, es, ks)
  {
    if |es| == 0 {
    } else {
      var n := |es| - 1;
      MergedTreesDur(evs, ts[..n], es[..n], ks);
      TotalDurSnoc(ts[..n], ts[n]);
      assert ts == ts[..n] + [ts[n]] && PrintsMerged(evs, ts[n], es[n], ks);
    }
  }

  /** The entries listed under an owner print together the time of everything called from it. */
  lemma {:induction false} AggregateTreesDur(evs: seq<Event>, ps: seq<Placement>, owner: Option<nat>)
    requires |ps| == |evs| && Backward(ps)
    ensures TotalDur(Trees(evs, ps, true, Entries(evs, ps, true, owner, |evs|))) == SumDur(evs, Kids(ps, owner, |evs|))
  {
    var es, ks := Entries(evs, ps, true, owner, |evs|), Kids(ps, owner, |evs|);
    var ts := Trees(evs, ps, true, es);
    forall k | 0 <= k < |es| ensures PrintsMerged(evs, ts[k], es[k], ks) {
      EntryTreeDur(evs, ps, owner, es[k]);
    }
    MergedTreesDur(evs, ts, es, ks);
    AggregationKeepsTime(evs, ks);
  }

  lemma {:induction false} SumAtLeastMember(evs: seq<Event>, ks: seq<nat>, i: nat)
    requires Within(ks, |evs|) && (forall m | 0 <= m < |evs| :: evs[m].dur >= 0)
    ensures SumDur(evs, ks) >= if i in ks then evs[i].dur else 0
  {
    if |ks| == 0 {
    } else {
      SumAtLeastMember(evs, ks[..|ks| - 1], i);
      assert ks == ks[..|ks| - 1] + [ks[|ks| - 1]];
    }
  }

  /** Neither is any with aggregation, where an entry's time is that of all calls merged into it but its
      list holds only what was called from the first of them. */
  lemma {:induction false} AggregateExclusiveNonNegative(evs: seq<Event>, cut: int, i: nat)
    requires SortedByStart(evs) && Nested(evs) && i < |evs| && forall m | 0 <= m < |evs| :: evs[m].dur >= 0
    ensures Exclusive(TreeOf(evs, Place(evs, cut), true, i)) >= 0
  {
    NestedRunsInside(evs, cut);
    AggregateExclusiveFits(evs, Place(evs, cut), i);
  }

  lemma {:induction false} AggregateExclusiveFits(evs: seq<Event>, ps: seq<Placement>, i: nat)
    requires |ps| == |evs| && Backward(ps) && RunInside(evs, ps) && i < |evs|
    requires forall m | 0 <= m < |evs| :: evs[m].dur >= 0
    ensures Exclusive(TreeOf(evs, ps, true, i)) >= 0
  {
    var ks, es := Kids(ps, Some(i), |evs|), Entries(evs, ps, true, Some(i), |evs|);
    KidsFit(evs, ps, i, |evs|);
    AggregateTreesDur(evs, ps, Some(i));
    assert TreeOf(evs, ps, true, i).kids == Trees(evs, ps, true, es);
    MembersNonEmpty(evs, ps, true, i, |evs|);
    SumAtLeastMember(evs, Members(evs, ps, true, i, |evs|), i);
  }

  // ---------- The sort ----------

  /** The order given to qsort: by start, and of two that start together the longer first. */
  function Compare(a: Event, b: Event): int {
    if a.ts < b.ts then -1 else if a.ts > b.ts then 1
    else if a.dur > b.dur then -1 else if a.dur < b.dur then 1 else 0
  }

  /** Earlier starts come first, and of equal starts the longer call; the order is total, as sorting
      demands. */
  lemma {:induction false} CompareOrders(a: Event, b: Event, c: Event)
    ensures Compare(a, b) == -Compare(b, a) && -1 <= Compare(a, b) <= 1
    ensures Compare(a, b) < 0 <==> a.ts < b.ts || (a.ts == b.ts && a.dur > b.dur)
    ensures Compare(a, b) <= 0 && Compare(b, c) <= 0 ==> Compare(a, c) <= 0
  {
  }

  /** As sets of intervals, whatever their order: any two are disjoint or one contains the other. */
  predicate Laminar(a: Event, b: Event) {
    || a.End() <= b.ts || b.End() <= a.ts
    || (a.ts <= b.ts && b.End() <= a.End()) || (b.ts <= a.ts && a.End() <= b.End())
  }

  /** Sorting with that order is what makes a laminar trace nested: the tie-break puts a parent
      before a child that starts with it. */
  lemma {:induction false} SortingNestsLaminarTraces(evs: seq<Event>)
    requires forall i, j | 0 <= i < j < |evs| :: Compare(evs[i], evs[j]) <= 0
    requires forall i, j | 0 <= i < j < |evs| :: Laminar(evs[i], evs[j])
    requires forall i | 0 <= i < |evs| :: evs[i].dur >= 0
    ensures SortedByStart(evs) && Nested(evs)
  {
    forall i, j | 0 <= i < j < |evs| ensures evs[i].ts <= evs[j].ts && NestedPair(evs, i, j) {
      assert Compare(evs[i], evs[j]) <= 0 && Laminar(evs[i], evs[j]);
    }
  }
}
