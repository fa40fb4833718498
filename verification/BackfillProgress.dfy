/** How fast refreshes of an account reach the end of a history that no longer grows. */
module BackfillProgress {
  import opened Backfill
  import opened BackfillProtocol
  import opened MatchHistorySync
  import opened Prelude

  /** Stored rows and cursor between two refreshes. */
  datatype Account = Account(stored: set<MatchId>, cursor: Cursor)

  function PagesOf(list: seq<MatchId>): (r: PageRequest -> seq<MatchId>) {
    (r: PageRequest) => Slice(list, r.start, r.count)
  }

  ghost predicate EveryDetailLoads(loads: MatchId -> bool) {
    forall id :: loads(id)
  }

  /** One sync run to its end on an unchanging list: a thrown one leaves the account as it was. */
  function Sync(a: Account, list: seq<MatchId>, sizes: PageSizes, syncType: SyncType,
                loads: MatchId -> bool): (r: Account) {
    var plan := Plan(a.cursor, sizes);
    var results := ResultsOf(plan, PagesOf(list));
    var o := OutcomeOf(a.cursor, plan, results, syncType, KnownIds(AllIds(plan, results), a.stored), loads);
    if o.Thrown? then a else Account(a.stored + o.rows, o.cursor)
  }

  function Refresh(a: Account, list: seq<MatchId>, sizes: PageSizes, loads: MatchId -> bool): (r: Account) {
    Sync(a, list, sizes, SyncType.Refresh, loads)
  }

  function Repeat(step: Account -> Account, a: Account, n: nat): (r: Account) {
    if n == 0 then a else step(Repeat(step, a, n - 1))
  }

  /** n refreshes of an account, one after the other. */
  function Refreshes(a: Account, list: seq<MatchId>, sizes: PageSizes, loads: MatchId -> bool, n: nat): (r: Account) {
    Repeat((x: Account) => Refresh(x, list, sizes, loads), a, n)
  }

  lemma {:induction false} ResultsAnswer(plan: seq<PageRequest>, respond: PageRequest -> seq<MatchId>)
    requires StartsIncrease(plan)
    ensures forall r :: r in plan ==> PageOf(ResultsOf(plan, respond), r.start) == respond(r)
  {
    if plan == [] {
    } else {
      var n := |plan| - 1;
      ResultsAnswer(plan[..n], respond);
      forall r | r in plan ensures PageOf(ResultsOf(plan, respond), r.start) == respond(r) {
        var i :| 0 <= i < |plan| && plan[i] == r;
        assert i < n ==> r in plan[..n] && plan[i].start < plan[n].start;
      }
    }
  }

  ghost predicate PageResolved(r: PageRequest, list: seq<MatchId>, results: map<nat, seq<MatchId>>,
                               resolved: set<MatchId>) {
    PageOf(results, r.start) == Slice(list, r.start, r.count) && AllResolved(PageOf(results, r.start), resolved)
  }

  /** With every page resolved, the walk runs through the full pages and stops at the end of the list. */
  lemma {:induction false} WalkProgress(next: nat, size: nat, n: nat, rs: seq<PageRequest>, list: seq<MatchId>,
                                        results: map<nat, seq<MatchId>>, resolved: set<MatchId>)
    requires size > 0 && rs == HistoryPages(next, size, n)
    requires forall r :: r in rs ==> PageResolved(r, list, results, resolved)
    ensures var c := AdvanceFrom(next, rs, results, resolved);
      c.complete || (if n == 0 then c.nextStart == next else next + size <= c.nextStart <= |list|)
    decreases n
  {
    if n == 0 {
    } else {
      assert rs[0] in rs && PageResolved(rs[0], list, results, resolved);
      if |Slice(list, next, size)| == size {
        WalkProgress(next + size, size, n - 1, rs[1..], list, results, resolved);
      }
    }
  }

  lemma {:induction false} AllCountLoaded(ids: seq<MatchId>, loaded: set<MatchId>)
    requires forall id :: id in ids ==> id in loaded
    ensures CountLoaded(ids, loaded) == |ids|
  {
    if ids == [] {
    } else {
      AllCountLoaded(ids[1..], loaded);
    }
  }

  /** When every detail loads, a refresh does not throw and resolves every page id. */
  lemma RefreshResolves(a: Account, list: seq<MatchId>, sizes: PageSizes, loads: MatchId -> bool)
    returns (resolved: set<MatchId>)
    requires sizes.Valid() && EveryDetailLoads(loads)
    ensures var plan := Plan(a.cursor, sizes);
      var results := ResultsOf(plan, PagesOf(list));
      && (forall r :: r in plan ==> PageResolved(r, list, results, resolved))
      && Refresh(a, list, sizes, loads).cursor == Advance(a.cursor, plan, results, resolved)
  {
    var plan := Plan(a.cursor, sizes);
    var results := ResultsOf(plan, PagesOf(list));
    var known := KnownIds(AllIds(plan, results), a.stored);
    var requested := RequestedIds(plan, results, SyncType.Refresh, known);
    var loaded := LoadedIds(requested, loads);
    PlanIncreases(a.cursor, sizes);
    ResultsAnswer(plan, PagesOf(list));
    RequestsAreDistinct(plan, results, SyncType.Refresh, known);
    resolved := known + loaded;
    forall r, id | r in plan && id in PageOf(results, r.start) ensures id in resolved {
      FlatContains(plan, results, r, id);
      assert id in Elements(Flat(plan, results));
      assert id in AllIds(plan, results);
    }
    var recent := RecentIds(results, SyncType.Refresh);
    forall id | id in recent ensures id in loaded {
      assert id in Elements(PriorityIds(results, SyncType.Refresh));
      assert id in requested;
    }
    AllCountLoaded(recent, loaded);
  }

  /** From a to b the history completes, or the cursor rises by at least one page within the list. */
  ghost predicate Progresses(a: Account, b: Account, list: seq<MatchId>, page: nat) {
    b.cursor.complete || (!a.cursor.complete && a.cursor.nextStart + page <= b.cursor.nextStart <= |list|)
  }

  /** What the cursor claims about a fixed list is stored. */
  ghost predicate ClaimsStored(a: Account, list: seq<MatchId>) {
    StoredTo(list, a.stored, a.cursor.nextStart) && (a.cursor.complete ==> StoredTo(list, a.stored, |list|))
  }

  /** Each refresh completes the history or raises the cursor by at least one page, and the cursor never
      passes the end of the list. */
  lemma RefreshProgress(a: Account, list: seq<MatchId>, sizes: PageSizes, loads: MatchId -> bool)
    requires sizes.Valid() && sizes.latest == sizes.page && sizes.extraPages >= 1 && EveryDetailLoads(loads)
    ensures Progresses(a, Refresh(a, list, sizes, loads), list, sizes.page)
  {
    var resolved := RefreshResolves(a, list, sizes, loads);
    var plan := Plan(a.cursor, sizes);
    var results := ResultsOf(plan, PagesOf(list));
    if !a.cursor.complete {
      var first := FirstHistoryStart(a.cursor, sizes);
      PlanHistory(a.cursor, sizes);
      assert plan[0] in plan && PageResolved(plan[0], list, results, resolved);
      assert plan[1..] == HistoryPages(first, sizes.page, sizes.extraPages);
      WalkProgress(first, sizes.page, sizes.extraPages, plan[1..], list, results, resolved);
    }
  }

  lemma SlicesShow(plan: seq<PageRequest>, list: seq<MatchId>)
    requires StartsIncrease(plan)
    ensures PagesShow(list, plan, ResultsOf(plan, PagesOf(list)), map r | r in plan :: r.start := 0, 0, 0)
  {
    ResultsAnswer(plan, PagesOf(list));
    assert [] + list == list;
    forall r | r in plan ensures PageShows(list, PageOf(ResultsOf(plan, PagesOf(list)), r.start), r.start, r.count, 0) {
      ReadingShows([], list, r.start, r.count);
    }
  }

  lemma RowsThenCursor(a: Account, list: seq<MatchId>, sizes: PageSizes, known: set<MatchId>, loaded: set<MatchId>)
    requires sizes.Valid() && ClaimsStored(a, list) && known <= a.stored
    ensures var plan := Plan(a.cursor, sizes);
      var results := ResultsOf(plan, PagesOf(list));
      ClaimsStored(Account(a.stored + NewRows(plan, results, known, loaded),
                           Advance(a.cursor, plan, results, known + loaded)), list)
  {
    var plan := Plan(a.cursor, sizes);
    var results := ResultsOf(plan, PagesOf(list));
    var stored := a.stored + NewRows(plan, results, known, loaded);
    PlanIncreases(a.cursor, sizes);
    SlicesShow(plan, list);
    ResolvedAreStored(plan, results, known, loaded, stored);
    AdvanceIsSafe(list, stored, a.cursor, sizes, results, map r | r in plan :: r.start := 0, 0, 0, known + loaded);
  }

  /** Whatever kind of sync runs and whichever details load, what the cursor claims stays stored. */
  lemma SyncKeepsClaims(a: Account, list: seq<MatchId>, sizes: PageSizes, syncType: SyncType, loads: MatchId -> bool)
    requires sizes.Valid() && ClaimsStored(a, list)
    ensures ClaimsStored(Sync(a, list, sizes, syncType, loads), list)
  {
    var plan := Plan(a.cursor, sizes);
    var results := ResultsOf(plan, PagesOf(list));
    var known := KnownIds(AllIds(plan, results), a.stored);
    RowsThenCursor(a, list, sizes, known, LoadedIds(RequestedIds(plan, results, syncType, known), loads));
  }

  /** One past sync of an account, with the page sizes and details of its time. */
  datatype PastSync = PastSync(sizes: PageSizes, syncType: SyncType, loads: MatchId -> bool)

  function AfterSyncs(a: Account, list: seq<MatchId>, past: seq<PastSync>): (r: Account)
    decreases past
  {
    if past == [] then a
    else AfterSyncs(Sync(a, list, past[0].sizes, past[0].syncType, past[0].loads), list, past[1..])
  }

  lemma {:induction false} SyncsKeepClaims(a: Account, list: seq<MatchId>, past: seq<PastSync>)
    requires ClaimsStored(a, list) && forall p :: p in past ==> p.sizes.Valid()
    ensures ClaimsStored(AfterSyncs(a, list, past), list)
    decreases past
  {
    if past == [] {
    } else {
      assert past[0] in past;
      SyncKeepsClaims(a, list, past[0].sizes, past[0].syncType, past[0].loads);
      SyncsKeepClaims(Sync(a, list, past[0].sizes, past[0].syncType, past[0].loads), list, past[1..]);
    }
  }

  /** An account claims only stored matches whatever initial, failed or differently sized syncs lie behind it. */
  lemma EveryAccountClaims(stored: set<MatchId>, list: seq<MatchId>, past: seq<PastSync>)
    requires forall p :: p in past ==> p.sizes.Valid()
    ensures ClaimsStored(AfterSyncs(Account(stored, Cursor(0, false)), list, past), list)
  {
    SyncsKeepClaims(Account(stored, Cursor(0, false)), list, past);
  }

  /** n pages of the given size. */
  ghost function Pages(n: nat, size: nat): nat {
    if n == 0 then 0 else Pages(n - 1, size) + size
  }

  lemma {:induction false} PagesIsProduct(n: nat, size: nat)
    ensures Pages(n, size) == n * size
  {
    if n == 0 {
    } else {
      PagesIsProduct(n - 1, size);
    }
  }

  lemma {:induction false} RepeatProgresses(step: Account -> Account, a: Account, list: seq<MatchId>, page: nat, n: nat)
    requires forall x :: Progresses(x, step(x), list, page)
    requires forall x :: ClaimsStored(x, list) ==> ClaimsStored(step(x), list)
    requires ClaimsStored(a, list)
    ensures var b := Repeat(step, a, n);
      && ClaimsStored(b, list)
      && (b.cursor.complete
          || (if n == 0 then b == a else a.cursor.nextStart + Pages(n, page) <= b.cursor.nextStart <= |list|))
  {
    if n == 0 {
    } else {
      RepeatProgresses(step, a, list, page, n - 1);
      var c := Repeat(step, a, n - 1);
      assert Progresses(c, step(c), list, page);
    }
  }

  /** From any account whose cursor claims only stored matches, a fixed history is complete, and every one of
      its matches stored, after at most floor(length / pageSize) + 1 refreshes with at least one extra page and
      no failing detail. */
  lemma BackfillCompletes(a: Account, list: seq<MatchId>, sizes: PageSizes, loads: MatchId -> bool)
    requires sizes.Valid() && sizes.latest == sizes.page && sizes.extraPages >= 1 && EveryDetailLoads(loads)
    requires ClaimsStored(a, list)
    ensures var b := Refreshes(a, list, sizes, loads, |list| / sizes.page + 1);
      b.cursor.complete && forall id :: id in list ==> id in b.stored
  {
    var step := (x: Account) => Refresh(x, list, sizes, loads);
    RefreshSteps(list, sizes, loads, step);
    CompletesBy(step, a, list, sizes.page);
  }

  lemma RefreshSteps(list: seq<MatchId>, sizes: PageSizes, loads: MatchId -> bool, step: Account -> Account)
    requires sizes.Valid() && sizes.latest == sizes.page && sizes.extraPages >= 1 && EveryDetailLoads(loads)
    requires forall x :: step(x) == Refresh(x, list, sizes, loads)
    ensures forall x :: Progresses(x, step(x), list, sizes.page)
    ensures forall x :: ClaimsStored(x, list) ==> ClaimsStored(step(x), list)
  {
    forall x ensures Progresses(x, step(x), list, sizes.page) {
      RefreshProgress(x, list, sizes, loads);
    }
    forall x | ClaimsStored(x, list) ensures ClaimsStored(step(x), list) {
      SyncKeepsClaims(x, list, sizes, SyncType.Refresh, loads);
    }
  }

  lemma CompletesBy(step: Account -> Account, a: Account, list: seq<MatchId>, page: nat)
    requires page > 0 && ClaimsStored(a, list)
    requires forall x :: Progresses(x, step(x), list, page)
    requires forall x :: ClaimsStored(x, list) ==> ClaimsStored(step(x), list)
    ensures var b := Repeat(step, a, |list| / page + 1);
      b.cursor.complete && forall id :: id in list ==> id in b.stored
  {
    RepeatProgresses(step, a, list, page, |list| / page + 1);
    BeyondTheEnd(|list|, page);
    CompleteStoresAll(Repeat(step, a, |list| / page + 1), list);
  }

  lemma CompleteStoresAll(b: Account, list: seq<MatchId>)
    requires ClaimsStored(b, list) && b.cursor.complete
    ensures forall id :: id in list ==> id in b.stored
  {
  }

  lemma BeyondTheEnd(length: nat, page: nat)
    requires page > 0
    ensures Pages(length / page + 1, page) > length
  {
    PagesIsProduct(length / page, page);
    assert length == (length / page) * page + length % page;
  }
}
