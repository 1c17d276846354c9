/** What `--aggregate` does to the forest of tools/callgraph_vis.cpp: which events an entry stands
    for, that no time is lost from a list, and which subtrees disappear. */
module CallForestAggregation {
  import opened Common
  import opened CallForest

  ghost predicate DistinctNames(evs: seq<Event>, ks: seq<nat>)
    requires Within(ks, |evs|)
  {
    forall j, k | 0 <= j < k < |ks| :: evs[ks[j]].name != evs[ks[k]].name
  }

  /** An aggregated list has one entry for every name among the kids, and no name twice. */
  lemma {:induction false} FirstsAreDistinct(evs: seq<Event>, ks: seq<nat>)
    requires Within(ks, |evs|)
    ensures DistinctNames(evs, Firsts(evs, ks))
    ensures forall name :: HasName(evs, Firsts(evs, ks), name) <==> HasName(evs, ks, name)
  {
    if |ks| == 0 {
    } else {
      var init, last := ks[..|ks| - 1], ks[|ks| - 1];
      FirstsAreDistinct(evs, init);
      assert ks == init + [last];
      forall name ensures HasName(evs, Firsts(evs, ks), name) <==> HasName(evs, ks, name) {
        HasNameSnoc(evs, init, last, name);
        HasNameSnoc(evs, Firsts(evs, init), last, name);
      }
    }
  }

  lemma {:induction false} HasNameSnoc(evs: seq<Event>, ks: seq<nat>, i: nat, name: string)
    requires Within(ks, |evs|) && i < |evs|
    ensures HasName(evs, ks + [i], name) <==> HasName(evs, ks, name) || evs[i].name == name
  {
    if HasName(evs, ks, name) {
      var k :| 0 <= k < |ks| && evs[ks[k]].name == name;
      assert (ks + [i])[k] == ks[k];
    }
    assert (ks + [i])[|ks|] == i;
  }

  lemma {:induction false} WithNameMembership(evs: seq<Event>, ks: seq<nat>, name: string, i: nat)
    requires Within(ks, |evs|)
    ensures i in WithName(evs, ks, name) <==> i in ks && evs[i].name == name
  {
    if |ks| == 0 {
    } else {
      WithNameMembership(evs, ks[..|ks| - 1], name, i);
      assert ks == ks[..|ks| - 1] + [ks[|ks| - 1]];
    }
  }

  lemma {:induction false} KidsIncrease(ps: seq<Placement>, owner: Option<nat>, n: nat)
    requires n <= |ps| && Backward(ps)
    ensures Increasing(Kids(ps, owner, n))
  {
    if n == 0 {
    } else {
      KidsIncrease(ps, owner, n - 1);
    }
  }

  lemma {:induction false} WithNameIncreases(evs: seq<Event>, ks: seq<nat>, name: string)
    requires Within(ks, |evs|) && Increasing(ks)
    ensures Increasing(WithName(evs, ks, name))
    ensures forall k | 0 <= k < |WithName(evs, ks, name)| :: WithName(evs, ks, name)[k] in ks
  {
    if |ks| == 0 {
    } else {
      var init, last := ks[..|ks| - 1], ks[|ks| - 1];
      assert ks == init + [last] && Increasing(init);
      WithNameIncreases(evs, init, name);
      ChosenIncrease(WithName(evs, init, name), init, last);
    }
  }

  /** A choice from an increasing list increases, also with the list's next element. */
  lemma {:induction false} ChosenIncrease(some: seq<nat>, init: seq<nat>, last: nat)
    requires Increasing(init + [last]) && Increasing(some) && forall k | 0 <= k < |some| :: some[k] in init
    ensures var more, all := some + [last], init + [last];
            && Increasing(more) && (forall k | 0 <= k < |more| :: more[k] in all)
            && (forall k | 0 <= k < |some| :: some[k] in all)
  {
    forall k | 0 <= k < |some| ensures some[k] < last && some[k] in init + [last] {
      BeforeLast(init, last, some[k]);
    }
  }

  lemma {:induction false} BeforeLast(init: seq<nat>, last: nat, x: nat)
    requires Increasing(init + [last]) && x in init
    ensures x < last && x in init + [last]
  {
    var k :| 0 <= k < |init| && init[k] == x;
    assert (init + [last])[k] == x && (init + [last])[|init|] == last;
  }

  /** The members of an aggregated entry are exactly the surviving events of its name whose stack
      parent owns the list, each once. */
  lemma {:induction false} MembersExact(evs: seq<Event>, ps: seq<Placement>, owner: Option<nat>, e: nat, n: nat)
    requires n <= |ps| == |evs| && Backward(ps)
    requires e in Entries(evs, ps, true, owner, n)
    ensures forall i: nat ::
              i in Members(evs, ps, true, e, n) <==> i < n && IsKid(ps, owner, i) && evs[i].name == evs[e].name
    ensures Increasing(Members(evs, ps, true, e, n))
  {
    var kids := Kids(ps, owner, n);
    KidsMembership(ps, owner, n, e);
    KidsIncrease(ps, owner, n);
    WithNameIncreases(evs, kids, evs[e].name);
    forall i: nat
      ensures i in Members(evs, ps, true, e, n) <==> i < n && IsKid(ps, owner, i) && evs[i].name == evs[e].name
    {
      KidsMembership(ps, owner, n, i);
      WithNameMembership(evs, kids, evs[e].name, i);
    }
  }

  lemma {:induction false} NamedOnce(evs: seq<Event>, ks: seq<nat>, e: nat, f: nat)
    requires Within(ks, |evs|) && e in ks && f in ks && evs[e].name == evs[f].name && DistinctNames(evs, ks)
    ensures e == f
  {
    var j :| 0 <= j < |ks| && ks[j] == e;
    var k :| 0 <= k < |ks| && ks[k] == f;
  }

  lemma {:induction false} EntryWithName(evs: seq<Event>, ks: seq<nat>, i: nat) returns (e: nat)
    requires Within(ks, |evs|) && i in ks
    ensures e in Firsts(evs, ks) && e < |evs| && evs[e].name == evs[i].name
  {
    FirstsAreDistinct(evs, ks);
    var m :| 0 <= m < |ks| && ks[m] == i;
    var entries := Firsts(evs, ks);
    assert HasName(evs, ks, evs[i].name);
    var k :| 0 <= k < |entries| && evs[entries[k]].name == evs[i].name;
    e := entries[k];
  }

  /** Every surviving event is accounted to exactly one entry, and that entry is in its parent's list. */
  lemma {:induction false} AccountedOnce(evs: seq<Event>, ps: seq<Placement>, i: nat, n: nat) returns (e: nat)
    requires i < n <= |ps| == |evs| && Backward(ps) && ps[i].kept
    ensures e in Entries(evs, ps, true, ps[i].parent, n) && i in Members(evs, ps, true, e, n)
    ensures forall owner, f: nat ::
              f in Entries(evs, ps, true, owner, n) && i in Members(evs, ps, true, f, n) ==>
                f == e && owner == ps[i].parent
  {
    KidsMembership(ps, ps[i].parent, n, i);
    e := EntryWithName(evs, Kids(ps, ps[i].parent, n), i);
    MembersExact(evs, ps, ps[i].parent, e, n);
    forall owner, f: nat | f in Entries(evs, ps, true, owner, n) && i in Members(evs, ps, true, f, n)
      ensures f == e && owner == ps[i].parent
    {
      AccountedOnlyOnce(evs, ps, i, n, owner, e, f);
    }
  }

  lemma {:induction false} AccountedOnlyOnce(evs: seq<Event>, ps: seq<Placement>, i: nat, n: nat, owner: Option<nat>, e: nat, f: nat)
    requires i < n <= |ps| == |evs| && Backward(ps) && ps[i].kept
    requires e in Entries(evs, ps, true, ps[i].parent, n) && i in Members(evs, ps, true, e, n)
    requires f in Entries(evs, ps, true, owner, n) && i in Members(evs, ps, true, f, n)
    ensures f == e && owner == ps[i].parent
  {
    MembersExact(evs, ps, ps[i].parent, e, n);
    MembersExact(evs, ps, owner, f, n);
    FirstsAreDistinct(evs, Kids(ps, owner, n));
    NamedOnce(evs, Firsts(evs, Kids(ps, owner, n)), e, f);
  }

  /** An entry stands at least for itself. */
  lemma {:induction false} MembersNonEmpty(evs: seq<Event>, ps: seq<Placement>, aggregate: bool, m: nat, n: nat)
    requires n <= |ps| == |evs| && Backward(ps) && m < |evs|
    ensures m in Members(evs, ps, aggregate, m, n)
  {
    var kids := Kids(ps, ps[m].parent, n);
    WithNameMembership(evs, kids, evs[m].name, m);
  }

  // ---------- No time is lost from a list ----------

  lemma {:induction false} FirstsSameName(evs: seq<Event>, ks: seq<nat>, name: string)
    requires Within(ks, |evs|)
    ensures HasName(evs, Firsts(evs, ks), name) <==> HasName(evs, ks, name)
  {
    FirstsAreDistinct(evs, ks);
  }

  function EntriesTime(evs: seq<Event>, entries: seq<nat>, ks: seq<nat>): int
    requires Within(entries, |evs|) && Within(ks, |evs|)
  {
    if |entries| == 0 then 0
    else EntriesTime(evs, entries[..|entries| - 1], ks)
         + SumDur(evs, WithName(evs, ks, evs[entries[|entries| - 1]].name))
  }

  /** The entries of an aggregated list hold together exactly the time of all the kids they merge. */
  lemma {:induction false} AggregationKeepsTime(evs: seq<Event>, ks: seq<nat>)
    requires Within(ks, |evs|)
    ensures EntriesTime(evs, Firsts(evs, ks), ks) == SumDur(evs, ks)
  {
    if |ks| == 0 {
    } else {
      var init, last := ks[..|ks| - 1], ks[|ks| - 1];
      var before := Firsts(evs, init);
      AggregationKeepsTime(evs, init);
      assert init + [last] == ks;
      FirstsAreDistinct(evs, init);
      FirstsSameName(evs, init, evs[last].name);
      OneMoreKid(evs, before, init, last);
      if HasName(evs, before, evs[last].name) {
        assert Firsts(evs, ks) == before;
      } else {
        assert Firsts(evs, ks) == before + [last];
        EntriesTimeSnoc(evs, before, last, ks);
        FreshNameTime(evs, init, last);
      }
    }
  }

  lemma {:induction false} EntriesTimeSnoc(evs: seq<Event>, entries: seq<nat>, e: nat, ks: seq<nat>)
    requires Within(entries, |evs|) && Within(ks, |evs|) && e < |evs|
    ensures EntriesTime(evs, entries + [e], ks)
         == EntriesTime(evs, entries, ks) + SumDur(evs, WithName(evs, ks, evs[e].name))
  {
    assert (entries + [e])[..|entries|] == entries;
  }

  lemma {:induction false} FreshNameTime(evs: seq<Event>, ks: seq<nat>, i: nat)
    requires Within(ks, |evs|) && i < |evs|
    ensures !HasName(evs, ks, evs[i].name) ==> SumDur(evs, WithName(evs, ks + [i], evs[i].name)) == evs[i].dur
  {
    if !HasName(evs, ks, evs[i].name) {
      WithNameAbsent(evs, ks, evs[i].name);
      WithNameSnoc(evs, ks, i, evs[i].name);
      SumDurOne(evs, i);
    }
  }

  lemma {:induction false} SumDurOne(evs: seq<Event>, i: nat)
    requires i < |evs|
    ensures SumDur(evs, [] + [i]) == evs[i].dur
  {
    assert ([] + [i])[..0] == [];
  }

  lemma {:induction false} WithNameSnoc(evs: seq<Event>, ks: seq<nat>, i: nat, name: string)
    requires Within(ks, |evs|) && i < |evs|
    ensures WithName(evs, ks + [i], name)
         == if evs[i].name == name then WithName(evs, ks, name) + [i] else WithName(evs, ks, name)
  {
    assert (ks + [i])[..|ks|] == ks;
  }

  lemma {:induction false} WithNameAbsent(evs: seq<Event>, ks: seq<nat>, name: string)
    requires Within(ks, |evs|) && !HasName(evs, ks, name)
    ensures WithName(evs, ks, name) == []
  {
    var found := WithName(evs, ks, name);
    if |found| > 0 {
      WithNameMembership(evs, ks, name, found[0]);
      assert false;
    }
  }

  /** Adding a kid adds its time to the one entry with its name, if there is one. */
  lemma {:induction false} OneMoreKid(evs: seq<Event>, entries: seq<nat>, ks: seq<nat>, i: nat)
    requires Within(entries, |evs|) && Within(ks, |evs|) && i < |evs| && DistinctNames(evs, entries)
    ensures EntriesTime(evs, entries, ks + [i])
         == EntriesTime(evs, entries, ks) + if HasName(evs, entries, evs[i].name) then evs[i].dur else 0
  {
    if |entries| == 0 {
    } else {
      var init, last := entries[..|entries| - 1], entries[|entries| - 1];
      OneMoreKid(evs, init, ks, i);
      assert entries == init + [last];
      HasNameSnoc(evs, init, last, evs[i].name);
      var found := WithName(evs, ks, evs[last].name);
      WithNameSnoc(evs, ks, i, evs[last].name);
      assert (found + [i])[..|found|] == found;
    }
  }

  // ---------- Which events the forest still shows ----------

  ghost predicate Shows(t: Tree, i: nat) {
    t.call == i || exists k | 0 <= k < |t.kids| :: Shows(t.kids[k], i)
  }

  ghost predicate ShownIn(ts: seq<Tree>, i: nat) {
    exists k | 0 <= k < |ts| :: Shows(ts[k], i)
  }

  /** The event is an entry of its parent's list, its parent of its own parent's, up to a root. */
  predicate Listed(evs: seq<Event>, ps: seq<Placement>, aggregate: bool, i: nat)
    requires i < |ps| == |evs| && Backward(ps)
  {
    && i in Entries(evs, ps, aggregate, ps[i].parent, |evs|)
    && (ps[i].parent.Some? ==> Listed(evs, ps, aggregate, ps[i].parent.value))
  }

  lemma {:induction false} EntriesAreKids(evs: seq<Event>, ps: seq<Placement>, aggregate: bool, owner: Option<nat>, e: nat)
    requires |ps| == |evs| && Backward(ps) && e in Entries(evs, ps, aggregate, owner, |evs|)
    ensures e < |evs| && IsKid(ps, owner, e)
  {
    KidsMembership(ps, owner, |evs|, e);
  }

  lemma {:induction false} ShownUnderListed(evs: seq<Event>, ps: seq<Placement>, aggregate: bool, r: nat, i: nat)
    requires r < |ps| == |evs| && Backward(ps)
    requires Listed(evs, ps, aggregate, r) && Shows(TreeOf(evs, ps, aggregate, r), i)
    decreases |evs| - r
    ensures i < |evs| && Listed(evs, ps, aggregate, i)
  {
    if i != r {
      var t, entries := TreeOf(evs, ps, aggregate, r), Entries(evs, ps, aggregate, Some(r), |evs|);
      var k :| 0 <= k < |t.kids| && Shows(t.kids[k], i);
      assert entries[k] in entries;
      EntriesAreKids(evs, ps, aggregate, Some(r), entries[k]);
      ShownUnderListed(evs, ps, aggregate, entries[k], i);
    }
  }

  lemma {:induction false} EntryShown(evs: seq<Event>, ps: seq<Placement>, aggregate: bool, r: nat, p: nat, e: nat)
    requires r < |ps| == |evs| && Backward(ps)
    requires Shows(TreeOf(evs, ps, aggregate, r), p) && p < |evs| && e in Entries(evs, ps, aggregate, Some(p), |evs|)
    decreases |evs| - r
    ensures Shows(TreeOf(evs, ps, aggregate, r), e)
  {
    var t, entries := TreeOf(evs, ps, aggregate, r), Entries(evs, ps, aggregate, Some(r), |evs|);
    if p == r {
      var k :| 0 <= k < |entries| && entries[k] == e;
      assert t.kids[k] == TreeOf(evs, ps, aggregate, e);
      assert Shows(t.kids[k], e);
    } else {
      var k :| 0 <= k < |t.kids| && Shows(t.kids[k], p);
      EntryShown(evs, ps, aggregate, entries[k], p, e);
      assert Shows(t.kids[k], e);
    }
  }

  /** The printed forest shows exactly the listed events. */
  lemma {:induction false} ForestShowsListed(evs: seq<Event>, ps: seq<Placement>, aggregate: bool, i: nat)
    requires |ps| == |evs| && Backward(ps)
    ensures ShownIn(Forest(evs, ps, aggregate), i) <==> i < |evs| && Listed(evs, ps, aggregate, i)
  {
    var forest, roots := Forest(evs, ps, aggregate), Entries(evs, ps, aggregate, None, |evs|);
    if k :| 0 <= k < |forest| && Shows(forest[k], i) {
      assert roots[k] in roots;
      EntriesAreKids(evs, ps, aggregate, None, roots[k]);
      ShownUnderListed(evs, ps, aggregate, roots[k], i);
    }
    if i < |evs| && Listed(evs, ps, aggregate, i) {
      var k := ListedShown(evs, ps, aggregate, i);
    }
  }

  lemma {:induction false} ListedShown(evs: seq<Event>, ps: seq<Placement>, aggregate: bool, i: nat) returns (k: nat)
    requires i < |ps| == |evs| && Backward(ps) && Listed(evs, ps, aggregate, i)
    ensures k < |Forest(evs, ps, aggregate)| && Shows(Forest(evs, ps, aggregate)[k], i)
  {
    match ps[i].parent
    case None =>
      var roots := Entries(evs, ps, aggregate, None, |evs|);
      k :| 0 <= k < |roots| && roots[k] == i;
    case Some(p) =>
      k := ListedShown(evs, ps, aggregate, p);
      EntryShown(evs, ps, aggregate, Entries(evs, ps, aggregate, None, |evs|)[k], p, i);
  }

  /** Without aggregation every surviving event is shown. */
  lemma {:induction false} PlainListsAll(evs: seq<Event>, cut: int, i: nat)
    requires i < |evs|
    ensures Listed(evs, Place(evs, cut), false, i) <==> Kept(evs, cut, i)
  {
    var ps := Place(evs, cut);
    KidsMembership(ps, ps[i].parent, |evs|, i);
    DepthIsChainLength(evs, cut, i);
    if ps[i].parent.Some? {
      PlainListsAll(evs, cut, ps[i].parent.value);
    }
  }

  /** An entry of an aggregated list is the first of its name there. */
  lemma {:induction false} FirstsExact(evs: seq<Event>, ks: seq<nat>, m: nat)
    requires Within(ks, |evs|) && Increasing(ks) && m < |ks|
    ensures ks[m] in Firsts(evs, ks) <==> NewName(evs, ks, m)
  {
    var init, last := ks[..|ks| - 1], ks[|ks| - 1];
    assert Increasing(init) && ks[m] in ks;
    FirstsStep(evs, ks, init, last, ks[m]);
    if m < |init| {
      FirstsExact(evs, init, m);
      StillNew(evs, ks, init, m);
    } else {
      NamedBefore(evs, ks, m);
    }
  }

  /** None before the `m`th has its name. */
  predicate NewName(evs: seq<Event>, ks: seq<nat>, m: nat)
    requires Within(ks, |evs|) && m < |ks|
  {
    forall j | 0 <= j < m :: evs[ks[j]].name != evs[ks[m]].name
  }

  lemma {:induction false} StillNew(evs: seq<Event>, ks: seq<nat>, init: seq<nat>, m: nat)
    requires Within(ks, |evs|) && init <= ks && m < |init|
    ensures NewName(evs, init, m) <==> NewName(evs, ks, m)
  {
    assert forall j | 0 <= j <= m :: init[j] == ks[j];
  }

  /** The last event is an entry if its name is new; all others are what they were before it. */
  lemma {:induction false} FirstsStep(evs: seq<Event>, ks: seq<nat>, init: seq<nat>, last: nat, i: nat)
    requires Within(ks, |evs|) && Increasing(ks) && |ks| > 0 && init == ks[..|ks| - 1] && last == ks[|ks| - 1]
    ensures i in Firsts(evs, ks)
       <==> if i == last then !HasName(evs, init, evs[last].name) else i in Firsts(evs, init)
  {
    FirstsAreDistinct(evs, init);
    assert last !in init;
    assert last !in Firsts(evs, init);
  }

  lemma {:induction false} NamedBefore(evs: seq<Event>, ks: seq<nat>, m: nat)
    requires Within(ks, |evs|) && m < |ks|
    ensures !HasName(evs, ks[..m], evs[ks[m]].name) <==> NewName(evs, ks, m)
  {
    var init := ks[..m];
    if j :| 0 <= j < m && evs[ks[j]].name == evs[ks[m]].name {
      assert init[j] == ks[j];
    }
  }

  /** No earlier surviving event with the same parent has the event's name. */
  predicate FirstOfItsName(evs: seq<Event>, ps: seq<Placement>, i: nat)
    requires i < |ps| == |evs|
  {
    forall j | 0 <= j < i && IsKid(ps, ps[i].parent, j) :: evs[j].name != evs[i].name
  }

  lemma {:induction false} EntryIsFirst(evs: seq<Event>, ps: seq<Placement>, i: nat, n: nat)
    requires i < n <= |ps| == |evs| && Backward(ps) && ps[i].kept
    ensures i in Entries(evs, ps, true, ps[i].parent, n) <==> FirstOfItsName(evs, ps, i)
  {
    var kids := Kids(ps, ps[i].parent, n);
    KidsIncrease(ps, ps[i].parent, n);
    forall q: nat ensures q in kids <==> q < n && IsKid(ps, ps[i].parent, q) {
      KidsMembership(ps, ps[i].parent, n, q);
    }
    assert i in kids;
    var m :| 0 <= m < |kids| && kids[m] == i;
    FirstsExact(evs, kids, m);
    NewIsFirst(evs, ps, kids, m, n);
  }

  lemma {:induction false} NewIsFirst(evs: seq<Event>, ps: seq<Placement>, kids: seq<nat>, m: nat, n: nat)
    requires n <= |ps| == |evs| && Within(kids, n) && Increasing(kids) && m < |kids|
    requires forall q: nat :: q in kids <==> q < n && IsKid(ps, ps[kids[m]].parent, q)
    ensures NewName(evs, kids, m) <==> FirstOfItsName(evs, ps, kids[m])
  {
    if NewName(evs, kids, m) {
      forall q: nat | q < kids[m] && IsKid(ps, ps[kids[m]].parent, q) ensures evs[q].name != evs[kids[m]].name {
        assert q in kids;
        var j :| 0 <= j < |kids| && kids[j] == q;
      }
    } else {
      var j :| 0 <= j < m && evs[kids[j]].name == evs[kids[m]].name;
      assert kids[j] in kids;
    }
  }

  /** The event and all its ancestors survive the cut and are the first of their name. */
  predicate AllFirst(evs: seq<Event>, ps: seq<Placement>, i: nat)
    requires i < |ps| == |evs| && Backward(ps)
  {
    && ps[i].kept && FirstOfItsName(evs, ps, i)
    && (ps[i].parent.Some? ==> AllFirst(evs, ps, ps[i].parent.value))
  }

  lemma {:induction false} ListedIsAllFirst(evs: seq<Event>, ps: seq<Placement>, i: nat)
    requires i < |ps| == |evs| && Backward(ps)
    ensures Listed(evs, ps, true, i) <==> AllFirst(evs, ps, i)
  {
    KidsMembership(ps, ps[i].parent, |evs|, i);
    if ps[i].kept {
      EntryIsFirst(evs, ps, i, |evs|);
    }
    if ps[i].parent.Some? {
      ListedIsAllFirst(evs, ps, ps[i].parent.value);
    }
  }

  /** With aggregation an event is shown exactly when it and all its ancestors survive the cut and are
      the first of their name under their parent: what was called from a merged call disappears. */
  lemma {:induction false} AggregateShowsFirsts(evs: seq<Event>, ps: seq<Placement>, i: nat)
    requires |ps| == |evs| && Backward(ps)
    ensures ShownIn(Forest(evs, ps, true), i) <==> i < |evs| && AllFirst(evs, ps, i)
  {
    ForestShowsListed(evs, ps, true, i);
    if i < |evs| {
      ListedIsAllFirst(evs, ps, i);
    }
  }

  /** Nothing called from `p` is shown when an earlier call `q` from the same parent has its name. */
  lemma {:induction false} MergedCallsHideTheirKids(evs: seq<Event>, cut: int, i: nat, p: nat, q: nat)
    requires i < |evs| && Parent(evs, cut, i) == Some(p)
    requires q < p && Kept(evs, cut, q) && Parent(evs, cut, q) == Parent(evs, cut, p) && evs[q].name == evs[p].name
    ensures !ShownIn(Forest(evs, Place(evs, cut), true), i)
  {
    var ps := Place(evs, cut);
    AggregateShowsFirsts(evs, ps, i);
    assert IsKid(ps, ps[p].parent, q);
  }

  function MergedTrace(): seq<Event> {
    [Event("a", 0, 10), Event("b", 1, 2), Event("b", 4, 4), Event("c", 5, 1)]
  }

  /** A sorted, nested trace of four calls, none of them cut, of which the forest shows three: `c` is
      called from the second `b`, which is merged into the first. */
  lemma {:induction false} MergedTraceLosesCall()
    ensures var evs := MergedTrace();
            && SortedByStart(evs) && Nested(evs)
            && Kept(evs, 10, 3) && Parent(evs, 10, 3) == Some(2)
            && ShownIn(Forest(evs, Place(evs, 10), false), 3) && !ShownIn(Forest(evs, Place(evs, 10), true), 3)
  {
    var evs := MergedTrace();
    MergedOrder();
    ShallowKept(evs, 10, 1);
    ShallowKept(evs, 10, 2);
    ShallowKept(evs, 10, 3);
    ShallowKept(evs, 10, 0);
    ParentFound(evs, 10, 0, 1);
    ParentFound(evs, 10, 0, 2);
    ParentFound(evs, 10, 2, 3);
    MergedCallsHideTheirKids(evs, 10, 3, 2, 1);
    ForestShowsListed(evs, Place(evs, 10), false, 3);
    PlainListsAll(evs, 10, 3);
  }

  lemma {:induction false} MergedOrder()
    ensures SortedByStart(MergedTrace()) && Nested(MergedTrace())
  {
    var evs := MergedTrace();
    forall i, j | 0 <= i < j < |evs| ensures evs[i].ts <= evs[j].ts && NestedPair(evs, i, j) {
    }
  }

  /** No event is deeper than its place in the trace. */
  lemma {:induction false} ShallowKept(evs: seq<Event>, cut: int, i: nat)
    requires i < |evs| && i <= cut
    ensures Kept(evs, cut, i)
  {
    StackShort(evs, cut, i);
  }

  /** A parent is recognised by the events alone. */
  lemma {:induction false} ParentFound(evs: seq<Event>, cut: int, p: nat, i: nat)
    requires SortedByStart(evs) && p < i < |evs| && Kept(evs, cut, p) && evs[p].End() > evs[i].ts
    requires forall q | p < q < i :: evs[q].End() <= evs[i].ts
    ensures Parent(evs, cut, i) == Some(p)
  {
    ParentIsLatestCover(evs, cut, i);
    assert LatestCover(evs, cut, p, i);
  }
}
