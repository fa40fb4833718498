/** When a sync goes through although some details failed, and exactly what it then stores. */
module SyncOutcome {
  import opened Backfill
  import opened MatchHistorySync
  import opened Prelude

  /** The ids whose details load. */
  ghost function Loading(ids: seq<MatchId>, loads: MatchId -> bool): set<MatchId> {
    set id | id in ids && loads(id)
  }

  lemma OneMoreLoaded(id: MatchId, rest: set<MatchId>, loaded: set<MatchId>)
    requires id !in rest
    ensures |({id} + rest) * loaded| == |rest * loaded| + if id in loaded then 1 else 0
  {
    if id in loaded {
      assert ({id} + rest) * loaded == {id} + rest * loaded;
    } else {
      assert ({id} + rest) * loaded == rest * loaded;
    }
  }

  lemma {:induction false} CountIsSize(ids: seq<MatchId>, loaded: set<MatchId>)
    requires Distinct(ids)
    ensures CountLoaded(ids, loaded) == |Elements(ids) * loaded|
  {
    if ids == [] {
      assert Elements(ids) * loaded == {};
    } else {
      CountIsSize(ids[1..], loaded);
      assert Elements(ids) == {ids[0]} + Elements(ids[1..]);
      assert ids[0] !in Elements(ids[1..]);
      OneMoreLoaded(ids[0], Elements(ids[1..]), loaded);
    }
  }

  /** The details of the newest matches are always among the requested ones. */
  lemma RecentLoad(plan: seq<PageRequest>, results: map<nat, seq<MatchId>>, syncType: SyncType, known: set<MatchId>,
                   loads: MatchId -> bool)
    ensures var recent := RecentIds(results, syncType);
      Elements(recent) * LoadedIds(RequestedIds(plan, results, syncType, known), loads) == Loading(recent, loads)
  {
    var recent := RecentIds(results, syncType);
    forall id | id in recent ensures id in RequestedIds(plan, results, syncType, known) {
      assert id in Elements(recent);
      assert id in Elements(PriorityIds(results, syncType));
    }
  }

  lemma UsableExactly(plan: seq<PageRequest>, results: map<nat, seq<MatchId>>, syncType: SyncType,
                      known: set<MatchId>, loads: MatchId -> bool)
    requires Distinct(RecentIds(results, syncType))
    ensures var recent := RecentIds(results, syncType);
      Usable(results, syncType, LoadedIds(RequestedIds(plan, results, syncType, known), loads)) <==>
        |Loading(recent, loads)| >= 5 || |Loading(recent, loads)| == |recent|
  {
    var recent := RecentIds(results, syncType);
    RecentLoad(plan, results, syncType, known, loads);
    CountIsSize(recent, LoadedIds(RequestedIds(plan, results, syncType, known), loads));
    DistinctSize(recent);
    SubsetSize(Loading(recent, loads), Elements(recent));
  }

  /** A refresh goes through exactly when the details of five of the first ten ids of the latest page load, or, with
      fewer than five there, of all of them; each id of the page counts once. */
  lemma RefreshGoesThroughExactly(c: Cursor, plan: seq<PageRequest>, results: map<nat, seq<MatchId>>,
                                  known: set<MatchId>, loads: MatchId -> bool)
    requires Distinct(PageOf(results, 0))
    ensures var page := PageOf(results, 0);
      var n := if |page| < 10 then |page| else 10;
      OutcomeOf(c, plan, results, Refresh, known, loads).Synced? <==>
        |Loading(page[..n], loads)| >= if n < 5 then n else 5
  {
    var page := PageOf(results, 0);
    var n := if |page| < 10 then |page| else 10;
    assert page[..|page|] == page;
    assert RecentIds(results, Refresh) == page[..n];
    UsableExactly(plan, results, Refresh, known, loads);
    LoadingBound(page[..n], loads);
  }

  /** An initial sync goes through exactly when that holds of the whole latest page. */
  lemma InitialGoesThroughExactly(c: Cursor, plan: seq<PageRequest>, results: map<nat, seq<MatchId>>,
                                  known: set<MatchId>, loads: MatchId -> bool)
    requires Distinct(PageOf(results, 0))
    ensures var page := PageOf(results, 0);
      OutcomeOf(c, plan, results, Initial, known, loads).Synced? <==>
        |Loading(page, loads)| >= if |page| < 5 then |page| else 5
  {
    UsableExactly(plan, results, Initial, known, loads);
    LoadingBound(PageOf(results, 0), loads);
  }

  lemma LoadingBound(ids: seq<MatchId>, loads: MatchId -> bool)
    ensures |Loading(ids, loads)| <= |ids|
  {
    ElementsBound(ids);
    SubsetSize(Loading(ids, loads), Elements(ids));
  }

  // ---- what a sync stores ----

  ghost predicate OnSomePage(plan: seq<PageRequest>, results: map<nat, seq<MatchId>>, id: MatchId) {
    exists r :: r in plan && id in PageOf(results, r.start)
  }

  lemma {:induction false} FlatMembers(plan: seq<PageRequest>, results: map<nat, seq<MatchId>>, id: MatchId)
    ensures id in Flat(plan, results) <==> OnSomePage(plan, results, id)
  {
    if plan == [] {
    } else {
      FlatMembers(plan[1..], results, id);
      assert forall r :: r in plan <==> r == plan[0] || r in plan[1..];
    }
  }

  lemma AllIdsMembers(plan: seq<PageRequest>, results: map<nat, seq<MatchId>>, id: MatchId)
    ensures id in AllIds(plan, results) <==> OnSomePage(plan, results, id)
  {
    FlatMembers(plan, results, id);
    assert id in AllIds(plan, results) <==> id in Elements(AllIds(plan, results));
    assert id in Flat(plan, results) <==> id in Elements(Flat(plan, results));
  }

  lemma RequestedExactly(plan: seq<PageRequest>, results: map<nat, seq<MatchId>>, syncType: SyncType,
                         known: set<MatchId>, id: MatchId)
    ensures id in RequestedIds(plan, results, syncType, known) <==>
      id in RecentIds(results, syncType) || (OnSomePage(plan, results, id) && id !in known)
  {
    AllIdsMembers(plan, results, id);
    var priority := PriorityIds(results, syncType);
    assert id in priority <==> id in Elements(priority);
    assert id in RecentIds(results, syncType) <==> id in Elements(RecentIds(results, syncType));
  }

  /** A sync that goes through inserts exactly the unknown ids of its pages whose details load, and counts exactly
      the requested ids whose details do not: the newest matches, and the unknown ids of all pages. */
  lemma SyncStoresExactly(c: Cursor, plan: seq<PageRequest>, results: map<nat, seq<MatchId>>, syncType: SyncType,
                          known: set<MatchId>, loads: MatchId -> bool)
    returns (failed: set<MatchId>)
    requires OutcomeOf(c, plan, results, syncType, known, loads).Synced?
    ensures var o := OutcomeOf(c, plan, results, syncType, known, loads);
      && (forall id :: id in o.rows <==> OnSomePage(plan, results, id) && id !in known && loads(id))
      && o.failedCount == |failed|
    ensures forall id :: id in failed <==>
      !loads(id) && (id in RecentIds(results, syncType) || (OnSomePage(plan, results, id) && id !in known))
  {
    var o := OutcomeOf(c, plan, results, syncType, known, loads);
    var requested := RequestedIds(plan, results, syncType, known);
    forall id ensures id in o.rows <==> OnSomePage(plan, results, id) && id !in known && loads(id) {
      AllIdsMembers(plan, results, id);
      RequestedExactly(plan, results, syncType, known, id);
    }
    failed := Elements(FailedIds(requested, loads));
    RequestsAreDistinct(plan, results, syncType, known);
    FailedDistinct(requested, loads);
    DistinctSize(FailedIds(requested, loads));
    forall id
      ensures id in failed <==>
        !loads(id) && (id in RecentIds(results, syncType) || (OnSomePage(plan, results, id) && id !in known))
    {
      FailedMembers(requested, loads, id);
      RequestedExactly(plan, results, syncType, known, id);
    }
  }

  /** Against the rows stored so far: a detail is requested for the newest matches and for every page id that is not
      stored, and inserted for every page id that is not stored and loads. */
  lemma SyncAgainstStore(c: Cursor, plan: seq<PageRequest>, results: map<nat, seq<MatchId>>, syncType: SyncType,
                         stored: set<MatchId>, loads: MatchId -> bool, id: MatchId)
    ensures var known := KnownIds(AllIds(plan, results), stored);
      var o := OutcomeOf(c, plan, results, syncType, known, loads);
      && (id in RequestedIds(plan, results, syncType, known) <==>
            id in RecentIds(results, syncType) || (OnSomePage(plan, results, id) && id !in stored))
      && (o.Synced? ==> (id in o.rows <==> OnSomePage(plan, results, id) && id !in stored && loads(id)))
  {
    var known := KnownIds(AllIds(plan, results), stored);
    AllIdsMembers(plan, results, id);
    RequestedExactly(plan, results, syncType, known, id);
    if OutcomeOf(c, plan, results, syncType, known, loads).Synced? {
      var failed := SyncStoresExactly(c, plan, results, syncType, known, loads);
    }
  }

  lemma {:induction false} FailedDistinct(ids: seq<MatchId>, loads: MatchId -> bool)
    requires Distinct(ids)
    ensures Distinct(FailedIds(ids, loads))
  {
    if ids == [] {
    } else {
      FailedDistinct(ids[1..], loads);
      FailedMembers(ids[1..], loads, ids[0]);
    }
  }

  lemma {:induction false} FirstIndexGrows(ids: seq<MatchId>, x: MatchId, id: MatchId)
    ensures id in ids ==> FirstIndex(ids + [x], id) == FirstIndex(ids, id) < |ids|
    ensures x !in ids ==> FirstIndex(ids + [x], x) == |ids|
  {
    if ids == [] {
    } else {
      assert (ids + [x])[1..] == ids[1..] + [x];
      FirstIndexGrows(ids[1..], x, id);
    }
  }

  /** Repetitions are dropped in place: what is left is in the order of its first occurrences. */
  lemma {:induction false} DedupeInOrder(ids: seq<MatchId>, i: nat, j: nat)
    requires i < j < |Dedupe(ids)|
    ensures FirstIndex(ids, Dedupe(ids)[i]) < FirstIndex(ids, Dedupe(ids)[j])
  {
    var n := |ids| - 1;
    var rest, x := Dedupe(ids[..n]), ids[n];
    assert ids == ids[..n] + [x];
    assert rest[i] in Elements(rest) && rest[i] in ids[..n];
    FirstIndexGrows(ids[..n], x, rest[i]);
    if j < |rest| {
      DedupeInOrder(ids[..n], i, j);
      assert rest[j] in Elements(rest) && rest[j] in ids[..n];
      FirstIndexGrows(ids[..n], x, rest[j]);
    }
  }

  // ---- the requests in numbers ----

  /** Page k of the backfill part of a plan, unless the history is complete. */
  lemma {:induction false} HistoryPageAt(start: nat, size: nat, n: nat, k: nat)
    requires k < n
    ensures |HistoryPages(start, size, n)| == n
    ensures HistoryPages(start, size, n)[k] == PageRequest(start + k * size, size, History)
    decreases n
  {
    HistoryPagesCount(start, size, n);
    if k > 0 {
      HistoryPageAt(start + size, size, n - 1, k - 1);
      assert start + size + (k - 1) * size == start + k * size;
    }
  }

  lemma {:induction false} HistoryPagesCount(start: nat, size: nat, n: nat)
    ensures |HistoryPages(start, size, n)| == n
    decreases n
  {
    if n == 0 {
    } else {
      HistoryPagesCount(start + size, size, n - 1);
    }
  }

  /** A plan is the latest page and, unless the history is complete, the configured number of pages one after the
      other from the cursor, or from the end of the latest page when there is no cursor yet. */
  lemma PlanInNumbers(c: Cursor, sizes: PageSizes, k: nat)
    ensures var plan, first := Plan(c, sizes), if c.nextStart == 0 then sizes.latest else c.nextStart;
      && |plan| == 1 + (if c.complete then 0 else sizes.extraPages)
      && plan[0] == PageRequest(0, sizes.latest, Latest)
      && (!c.complete && k < sizes.extraPages ==>
            plan[1 + k] == PageRequest(first + k * sizes.page, sizes.page, History))
  {
    HistoryPagesCount(FirstHistoryStart(c, sizes), sizes.page, sizes.extraPages);
    if k < sizes.extraPages {
      HistoryPageAt(FirstHistoryStart(c, sizes), sizes.page, sizes.extraPages, k);
    }
  }

  /** All chunks but the last are full. */
  lemma {:induction false} ChunksFull(ids: seq<MatchId>, size: nat, k: nat)
    requires size > 0 && k + 1 < |Chunks(ids, size)|
    ensures |Chunks(ids, size)[k]| == size
    decreases |ids|
  {
    if k > 0 {
      ChunksFull(ids[size..], size, k - 1);
    }
  }

  // ---- the cursor in numbers ----

  /** The ids of backfill page k. */
  ghost function BackfillPage(start: nat, size: nat, results: map<nat, seq<MatchId>>, k: nat): seq<MatchId> {
    PageOf(results, start + k * size)
  }

  ghost predicate Full(start: nat, size: nat, results: map<nat, seq<MatchId>>, resolved: set<MatchId>, k: nat) {
    && (forall id :: id in BackfillPage(start, size, results, k) ==> id in resolved)
    && |BackfillPage(start, size, results, k)| >= size
  }

  /** Where a walk stops that has k full and resolved pages behind it and no such page ahead. */
  ghost function StopAt(start: nat, size: nat, n: nat, results: map<nat, seq<MatchId>>, resolved: set<MatchId>,
                        k: nat): Cursor
  {
    var ids := BackfillPage(start, size, results, k);
    if k < n && forall id :: id in ids ==> id in resolved then Cursor(start + k * size + |ids|, true)
    else Cursor(start + k * size, false)
  }

  lemma {:induction false} WalkStops(start: nat, size: nat, n: nat, results: map<nat, seq<MatchId>>,
                                     resolved: set<MatchId>, k: nat)
    requires k <= n && (forall i: nat :: i < k ==> Full(start, size, results, resolved, i))
    requires k < n ==> !Full(start, size, results, resolved, k)
    ensures AdvanceFrom(start, HistoryPages(start, size, n), results, resolved)
         == StopAt(start, size, n, results, resolved, k)
    decreases n
  {
    if k == 0 {
      WalkStopsAtOnce(start, size, n, results, resolved);
    } else {
      var next := start + size;
      WalkPassesFull(start, size, n, results, resolved);
      forall i: nat | i < k - 1 ensures Full(next, size, results, resolved, i) {
        NextPage(start, size, results, i);
        assert Full(start, size, results, resolved, i + 1);
      }
      NextPage(start, size, results, k - 1);
      WalkStops(next, size, n - 1, results, resolved, k - 1);
    }
  }

  lemma WalkStopsAtOnce(start: nat, size: nat, n: nat, results: map<nat, seq<MatchId>>, resolved: set<MatchId>)
    requires n > 0 ==> !Full(start, size, results, resolved, 0)
    ensures AdvanceFrom(start, HistoryPages(start, size, n), results, resolved)
         == StopAt(start, size, n, results, resolved, 0)
  {
    assert BackfillPage(start, size, results, 0) == PageOf(results, start);
  }

  lemma WalkPassesFull(start: nat, size: nat, n: nat, results: map<nat, seq<MatchId>>, resolved: set<MatchId>)
    requires n > 0 && Full(start, size, results, resolved, 0)
    ensures AdvanceFrom(start, HistoryPages(start, size, n), results, resolved)
         == AdvanceFrom(start + size, HistoryPages(start + size, size, n - 1), results, resolved)
  {
    assert BackfillPage(start, size, results, 0) == PageOf(results, start);
    var pages := HistoryPages(start, size, n);
    assert pages[0] == PageRequest(start, size, History) && pages[1..] == HistoryPages(start + size, size, n - 1);
  }

  lemma NextPage(start: nat, size: nat, results: map<nat, seq<MatchId>>, i: nat)
    ensures start + size + i * size == start + (i + 1) * size
    ensures BackfillPage(start + size, size, results, i) == BackfillPage(start, size, results, i + 1)
  {
  }

  /** Where a sync leaves the cursor. A complete one stays. One at the start stays while the latest page is not
      resolved, and completes when that page is short. Otherwise it moves past the full and resolved backfill pages, and
      completes at the end of a resolved short one. */
  lemma CursorInNumbers(c: Cursor, sizes: PageSizes, results: map<nat, seq<MatchId>>, resolved: set<MatchId>, k: nat)
    requires sizes.Valid() && k <= sizes.extraPages
    requires var first := if c.nextStart == 0 then sizes.latest else c.nextStart;
      && (forall i: nat :: i < k ==> Full(first, sizes.page, results, resolved, i))
      && (k < sizes.extraPages ==> !Full(first, sizes.page, results, resolved, k))
    ensures var d, latest := Advance(c, Plan(c, sizes), results, resolved), PageOf(results, 0);
      var first := if c.nextStart == 0 then sizes.latest else c.nextStart;
      d == if c.complete then c
           else if c.nextStart == 0 && exists id :: id in latest && id !in resolved then Cursor(0, false)
           else if c.nextStart == 0 && |latest| < sizes.latest then Cursor(0, true)
           else StopAt(first, sizes.page, sizes.extraPages, results, resolved, k)
  {
    if !c.complete {
      PlanHistory(c, sizes);
      WalkStops(FirstHistoryStart(c, sizes), sizes.page, sizes.extraPages, results, resolved, k);
    }
  }
}
