/** Many overlapping, failing and crashing syncs against a remote list that grows at its front. */
module BackfillProtocol {
  import opened Backfill
  import opened MatchHistorySync
  import opened Prelude

  datatype Phase = Reading | KnownFound | DetailsLoaded | RowsInserted

  /** A sync in flight: the cursor it read at its start, its pages so far, and how far it got. The
      newerAt counts are history: how many matches had arrived when the account and each page were read. */
  datatype Flight = Flight(
    seen: Cursor, sizes: PageSizes, syncType: SyncType, plan: seq<PageRequest>,
    pagesRead: nat, results: map<nat, seq<MatchId>>, newerAtStart: nat, newerAt: map<nat, nat>,
    phase: Phase, known: set<MatchId>, loaded: set<MatchId>)

  /** `original` is the remote list when the account's first sync began; `newer` what has arrived in
      front of it since, newest first. */
  datatype State = State(
    original: seq<MatchId>, newer: seq<MatchId>, stored: set<MatchId>, cursor: Cursor, flights: map<nat, Flight>)
  {
    function Remote(): (r: seq<MatchId>) {
      newer + original
    }
  }

  ghost predicate Init(s: State) {
    s.newer == [] && s.cursor == Cursor(0, false) && s.flights == map[]
  }

  // ---- steps ----

  ghost predicate MatchPlayed(s: State, t: State, id: MatchId) {
    t == s.(newer := [id] + s.newer)
  }

  /** Rows of the same player stored through another account. */
  ghost predicate StoredElsewhere(s: State, t: State, ids: set<MatchId>) {
    t == s.(stored := s.stored + ids)
  }

  ghost predicate StartSync(s: State, t: State, f: nat, sizes: PageSizes, syncType: SyncType) {
    && f !in s.flights && sizes.Valid() && (syncType == Initial ==> sizes.extraPages == 0)
    && t == s.(flights := s.flights[f := Flight(
         s.cursor, sizes, syncType, Plan(s.cursor, sizes), 0, map[], |s.newer|, map[], Reading, {}, {})])
  }

  ghost predicate ReadPage(s: State, t: State, f: nat) {
    && f in s.flights
    && var fl := s.flights[f];
    && fl.phase == Reading && fl.pagesRead < |fl.plan|
    && var r := fl.plan[fl.pagesRead];
    && t == s.(flights := s.flights[f := fl.(
         pagesRead := fl.pagesRead + 1,
         results := fl.results[r.start := Slice(s.Remote(), r.start, r.count)],
         newerAt := fl.newerAt[r.start := |s.newer|])])
  }

  ghost predicate FindKnown(s: State, t: State, f: nat) {
    && f in s.flights
    && var fl := s.flights[f];
    && fl.phase == Reading && fl.pagesRead == |fl.plan|
    && t == s.(flights := s.flights[f := fl.(
         phase := KnownFound, known := KnownIds(AllIds(fl.plan, fl.results), s.stored))])
  }

  /** Any subset of the requested details may load. */
  ghost predicate LoadDetails(s: State, t: State, f: nat, loaded: set<MatchId>) {
    && f in s.flights
    && var fl := s.flights[f];
    && fl.phase == KnownFound
    && loaded <= Elements(RequestedIds(fl.plan, fl.results, fl.syncType, fl.known))
    && t == s.(flights := s.flights[f := fl.(phase := DetailsLoaded, loaded := loaded)])
  }

  ghost predicate InsertRows(s: State, t: State, f: nat) {
    && f in s.flights
    && var fl := s.flights[f];
    && fl.phase == DetailsLoaded && Usable(fl.results, fl.syncType, fl.loaded)
    && t == s.(stored := s.stored + NewRows(fl.plan, fl.results, fl.known, fl.loaded),
               flights := s.flights[f := fl.(phase := RowsInserted)])
  }

  ghost predicate WriteCursor(s: State, t: State, f: nat) {
    && f in s.flights
    && var fl := s.flights[f];
    && fl.phase == RowsInserted
    && t == s.(cursor := Advance(fl.seen, fl.plan, fl.results, fl.known + fl.loaded), flights := s.flights - {f})
  }

  /** A throw or a crash, at any point, leaving the cursor as it is. */
  ghost predicate AbortSync(s: State, t: State, f: nat) {
    f in s.flights && t == s.(flights := s.flights - {f})
  }

  ghost predicate Next(s: State, t: State) {
    || (exists id :: MatchPlayed(s, t, id))
    || (exists ids :: StoredElsewhere(s, t, ids))
    || (exists f, sizes, syncType :: StartSync(s, t, f, sizes, syncType))
    || (exists f :: ReadPage(s, t, f))
    || (exists f :: FindKnown(s, t, f))
    || (exists f, loaded :: LoadDetails(s, t, f, loaded))
    || (exists f :: InsertRows(s, t, f))
    || (exists f :: WriteCursor(s, t, f))
    || (exists f :: AbortSync(s, t, f))
  }

  // ---- the invariant ----

  ghost predicate FlightOk(s: State, fl: Flight) {
    && fl.sizes.Valid() && fl.plan == Plan(fl.seen, fl.sizes)
    && fl.pagesRead <= |fl.plan| && (fl.phase != Reading ==> fl.pagesRead == |fl.plan|)
    && fl.newerAtStart <= |s.newer|
    && StoredTo(s.original, s.stored, fl.seen.nextStart - fl.newerAtStart)
    && (fl.seen.complete ==> StoredTo(s.original, s.stored, |s.original|))
    && PagesShow(s.original, fl.plan[..fl.pagesRead], fl.results, fl.newerAt, fl.newerAtStart, |s.newer|)
    && (fl.phase != Reading ==> fl.known <= s.stored)
    && (fl.phase == RowsInserted ==> NewRows(fl.plan, fl.results, fl.known, fl.loaded) <= s.stored)
  }

  ghost predicate Inv(s: State) {
    && StoredTo(s.original, s.stored, s.cursor.nextStart - |s.newer|)
    && (s.cursor.complete ==> StoredTo(s.original, s.stored, |s.original|))
    && forall f :: f in s.flights ==> FlightOk(s, s.flights[f])
  }

  /** A walk that starts behind a fully resolved latest page. */
  lemma AdvancePastLatest(original: seq<MatchId>, stored: set<MatchId>, plan: seq<PageRequest>,
                          results: map<nat, seq<MatchId>>, newerAt: map<nat, nat>, before: nat, now: nat,
                          resolved: set<MatchId>)
    requires plan != [] && plan[0].start == 0 && before <= now && StoredTo(original, stored, 0 - before)
    requires PagesShow(original, plan, results, newerAt, before, now)
    requires forall r, id :: r in plan && id in PageOf(results, r.start) && id in resolved ==> id in stored
    requires AllResolved(PageOf(results, 0), resolved)
    ensures |PageOf(results, 0)| < plan[0].count ==> StoredTo(original, stored, |original|)
    ensures var d := AdvanceFrom(plan[0].count, plan[1..], results, resolved);
      StoredTo(original, stored, d.nextStart - now) && (d.complete ==> StoredTo(original, stored, |original|))
  {
    assert plan[0] in plan;
    LaterPagesShow(original, plan, results, newerAt, before, now);
    StoredPageExtends(original, stored, PageOf(results, 0), 0, plan[0].count, before, newerAt[0]);
    AdvanceFromIsSafe(original, stored, plan[0].count, newerAt[0], now, plan[1..], results, newerAt, resolved);
  }

  /** The advance of a finished sync claims only what is stored. */
  lemma AdvanceIsSafe(original: seq<MatchId>, stored: set<MatchId>, c: Cursor, sizes: PageSizes,
                      results: map<nat, seq<MatchId>>, newerAt: map<nat, nat>, before: nat, now: nat,
                          resolved: set<MatchId>)
    requires sizes.Valid() && before <= now && StoredTo(original, stored, c.nextStart - before)
    requires c.complete ==> StoredTo(original, stored, |original|)
    requires PagesShow(original, Plan(c, sizes), results, newerAt, before, now)
    requires forall r, id :: r in Plan(c, sizes) && id in PageOf(results, r.start) && id in resolved ==> id in stored
    ensures var d := Advance(c, Plan(c, sizes), results, resolved);
      StoredTo(original, stored, d.nextStart - now) && (d.complete ==> StoredTo(original, stored, |original|))
  {
    var plan := Plan(c, sizes);
    if c.complete {
    } else {
      PlanHistory(c, sizes);
      assert plan[1..] == HistoryPages(FirstHistoryStart(c, sizes), sizes.page, sizes.extraPages);
      if c.nextStart > 0 {
        LaterPagesShow(original, plan, results, newerAt, before, now);
        AdvanceFromIsSafe(original, stored, c.nextStart, before, now, plan[1..], results, newerAt, resolved);
      } else if AllResolved(PageOf(results, 0), resolved) {
        AdvancePastLatest(original, stored, plan, results, newerAt, before, now, resolved);
      }
    }
  }

  lemma CommitKeeps(s: State, t: State, f: nat)
    requires Inv(s) && WriteCursor(s, t, f)
    ensures Inv(t)
  {
    var fl := s.flights[f];
    assert fl.plan[..fl.pagesRead] == fl.plan;
    ResolvedAreStored(fl.plan, fl.results, fl.known, fl.loaded, s.stored);
    AdvanceIsSafe(s.original, s.stored, fl.seen, fl.sizes, fl.results, fl.newerAt, fl.newerAtStart, |s.newer|,
                  fl.known + fl.loaded);
    forall g | g in t.flights ensures FlightOk(t, t.flights[g]) {
      assert FlightOk(s, s.flights[g]);
    }
  }

  /** Reading one more page in plan order extends what the pages show. */
  lemma ReadExtends(original: seq<MatchId>, plan: seq<PageRequest>, k: nat, results: map<nat, seq<MatchId>>,
                    newerAt: map<nat, nat>, from: nat, now: nat, ids: seq<MatchId>)
    requires k < |plan| && StartsIncrease(plan) && from <= now
    requires PagesShow(original, plan[..k], results, newerAt, from, now)
    requires PageShows(original, ids, plan[k].start, plan[k].count, now)
    ensures PagesShow(original, plan[..k + 1], results[plan[k].start := ids], newerAt[plan[k].start := now], from, now)
  {
    var results', newerAt' := results[plan[k].start := ids], newerAt[plan[k].start := now];
    forall r | r in plan[..k + 1]
      ensures r.start in newerAt' && from <= newerAt'[r.start] <= now
      ensures PageShows(original, PageOf(results', r.start), r.start, r.count, newerAt'[r.start])
    {
      var i :| 0 <= i < k + 1 && plan[i] == r;
      assert i < k ==> r in plan[..k] && plan[i].start < plan[k].start;
    }
    var read := plan[..k + 1];
    forall i, j | 0 <= i < j < |read|
      ensures newerAt'[read[i].start] <= newerAt'[read[j].start]
    {
      assert plan[..k][i] in plan[..k];
      if j < k {
        assert newerAt[plan[..k][i].start] <= newerAt[plan[..k][j].start];
      }
    }
  }

  lemma ReadKeeps(s: State, t: State, f: nat)
    requires Inv(s) && ReadPage(s, t, f)
    ensures Inv(t)
  {
    var fl := s.flights[f];
    var r := fl.plan[fl.pagesRead];
    PlanIncreases(fl.seen, fl.sizes);
    ReadingShows(s.newer, s.original, r.start, r.count);
    ReadExtends(s.original, fl.plan, fl.pagesRead, fl.results, fl.newerAt, fl.newerAtStart, |s.newer|,
                Slice(s.Remote(), r.start, r.count));
    UpdateKeeps(s, t, f);
  }

  /** A step that changes one flight only. */
  lemma UpdateKeeps(s: State, t: State, f: nat)
    requires Inv(s) && f in t.flights && t == s.(flights := s.flights[f := t.flights[f]]) && FlightOk(t, t.flights[f])
    ensures Inv(t)
  {
    forall g | g in t.flights ensures FlightOk(t, t.flights[g]) {
      assert g != f ==> FlightOk(s, s.flights[g]);
    }
  }

  lemma GrowKeeps(s: State, t: State, id: MatchId)
    requires Inv(s) && MatchPlayed(s, t, id)
    ensures Inv(t)
  {
    forall g | g in t.flights ensures FlightOk(t, t.flights[g]) {
      assert FlightOk(s, s.flights[g]);
    }
  }

  /** More rows never invalidate a claim. */
  lemma StoreKeeps(s: State, t: State)
    requires Inv(s) && s.stored <= t.stored && t == s.(stored := t.stored)
    ensures Inv(t)
  {
    forall g | g in t.flights ensures FlightOk(t, t.flights[g]) {
      assert FlightOk(s, s.flights[g]);
    }
  }

  lemma InsertKeeps(s: State, t: State, f: nat)
    requires Inv(s) && InsertRows(s, t, f)
    ensures Inv(t)
  {
    var u := s.(stored := t.stored);
    StoreKeeps(s, u);
    forall g | g in t.flights ensures FlightOk(t, t.flights[g]) {
      assert FlightOk(u, u.flights[g]);
    }
  }

  /** Every step of every sync keeps the invariant. */
  lemma NextKeepsInv(s: State, t: State)
    requires Inv(s) && Next(s, t)
    ensures Inv(t) && t.original == s.original && s.stored <= t.stored
    ensures exists arrived :: t.newer == arrived + s.newer
  {
    assert [] + s.newer == s.newer;
    if id :| MatchPlayed(s, t, id) {
      GrowKeeps(s, t, id);
    } else if ids :| StoredElsewhere(s, t, ids) {
      StoreKeeps(s, t);
    } else if f :| ReadPage(s, t, f) {
      ReadKeeps(s, t, f);
    } else if f :| InsertRows(s, t, f) {
      InsertKeeps(s, t, f);
    } else if f :| WriteCursor(s, t, f) {
      CommitKeeps(s, t, f);
    } else if f, sizes, syncType :| StartSync(s, t, f, sizes, syncType) {
      StartKeeps(s, t, f, sizes, syncType);
    } else if f :| FindKnown(s, t, f) {
      assert FlightOk(s, s.flights[f]);
      UpdateKeeps(s, t, f);
    } else if f, loaded :| LoadDetails(s, t, f, loaded) {
      assert FlightOk(s, s.flights[f]);
      UpdateKeeps(s, t, f);
    } else {
      var f :| AbortSync(s, t, f);
      AbortKeeps(s, t, f);
    }
  }

  lemma StartKeeps(s: State, t: State, f: nat, sizes: PageSizes, syncType: SyncType)
    requires Inv(s) && StartSync(s, t, f, sizes, syncType)
    ensures Inv(t)
  {
    assert t.flights[f].plan[..0] == [];
    UpdateKeeps(s, t, f);
  }

  lemma AbortKeeps(s: State, t: State, f: nat)
    requires Inv(s) && AbortSync(s, t, f)
    ensures Inv(t)
  {
    forall g | g in t.flights ensures FlightOk(t, t.flights[g]) {
      assert FlightOk(s, s.flights[g]);
    }
  }

  // ---- runs ----

  ghost predicate Run(run: seq<State>) {
    run != [] && Init(run[0]) && forall i: nat :: i + 1 < |run| ==> Next(run[i], run[i + 1])
  }

  lemma {:induction false} RunKeepsInv(run: seq<State>, i: nat)
    requires Run(run) && i < |run|
    ensures Inv(run[i]) && run[i].original == run[0].original
  {
    if i == 0 {
    } else {
      RunKeepsInv(run, i - 1);
      NextKeepsInv(run[i - 1], run[i]);
    }
  }

  /** Safety of the backfill, in every reachable state: a match listed when the first sync began is
      stored once its present position lies below the cursor, and all of them are when the history is
      marked complete. */
  lemma BackfillIsSafe(run: seq<State>, i: nat)
    requires Run(run) && i < |run|
    ensures var s := run[i];
      && (forall k :: |s.newer| <= k < |s.Remote()| && k < s.cursor.nextStart ==> s.Remote()[k] in s.stored)
      && (s.cursor.complete ==> forall id :: id in run[0].Remote() ==> id in s.stored)
  {
    var s := run[i];
    RunKeepsInv(run, i);
    forall k | |s.newer| <= k < |s.Remote()| && k < s.cursor.nextStart ensures s.Remote()[k] in s.stored {
      assert s.Remote()[k] == s.original[k - |s.newer|];
    }
    assert run[0].Remote() == run[0].original;
  }
}
