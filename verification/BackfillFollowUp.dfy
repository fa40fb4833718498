/** Matches that arrive after the first sync: when the latest pages leave no gap behind them. */
module BackfillFollowUp {
  import opened Backfill
  import opened BackfillProgress
  import opened BackfillProtocol
  import opened MatchHistorySync
  import opened Prelude

  // ---- what a latest page shows, under overlapping syncs ----

  /** The remote list when n matches had arrived. */
  ghost function RemoteAt(s: State, n: nat): seq<MatchId>
    requires n <= |s.newer|
  {
    s.newer[|s.newer| - n..] + s.original
  }

  /** A flight that has read a page has read the latest page as it was then. */
  ghost predicate LatestShows(s: State, fl: Flight) {
    fl.pagesRead > 0 ==>
      && 0 in fl.newerAt && fl.newerAt[0] <= |s.newer|
      && PageOf(fl.results, 0) == Slice(RemoteAt(s, fl.newerAt[0]), 0, fl.sizes.latest)
  }

  ghost predicate LatestInv(s: State) {
    forall f :: f in s.flights ==> LatestShows(s, s.flights[f])
  }

  lemma RemoteAtGrows(s: State, t: State, n: nat, id: MatchId)
    requires MatchPlayed(s, t, id) && n <= |s.newer|
    ensures RemoteAt(t, n) == RemoteAt(s, n)
  {
  }

  lemma FlightPlan(s: State, f: nat)
    requires Inv(s) && f in s.flights
    ensures var fl := s.flights[f];
      && fl.plan != [] && fl.plan[0] == PageRequest(0, fl.sizes.latest, Latest) && StartsIncrease(fl.plan)
      && fl.pagesRead <= |fl.plan| && (fl.phase != Reading ==> fl.pagesRead == |fl.plan|)
  {
    assert FlightOk(s, s.flights[f]);
    PlanIncreases(s.flights[f].seen, s.flights[f].sizes);
  }

  lemma FirstRead(s: State, t: State, f: nat)
    requires Inv(s) && ReadPage(s, t, f) && s.flights[f].pagesRead == 0
    ensures LatestShows(t, t.flights[f])
  {
    FlightPlan(s, f);
    assert s.newer[0..] == s.newer;
  }

  /** Reading a deeper page leaves the latest one alone. */
  lemma DeeperPage(s: State, fl: Flight, start: nat, ids: seq<MatchId>, now: nat, read: nat)
    requires LatestShows(s, fl) && fl.pagesRead > 0 && start != 0
    ensures LatestShows(
      s, fl.(pagesRead := read, results := fl.results[start := ids], newerAt := fl.newerAt[start := now]))
  {
  }

  lemma LaterRead(s: State, t: State, f: nat)
    requires Inv(s) && LatestInv(s) && ReadPage(s, t, f) && s.flights[f].pagesRead > 0
    ensures LatestShows(t, t.flights[f])
  {
    var fl := s.flights[f];
    FlightPlan(s, f);
    assert fl.plan[0].start < fl.plan[fl.pagesRead].start;
    var r := fl.plan[fl.pagesRead];
    DeeperPage(s, fl, r.start, Slice(s.Remote(), r.start, r.count), |s.newer|, fl.pagesRead + 1);
    SameListShows(s, t, t.flights[f]);
  }

  lemma SameListShows(s: State, t: State, fl: Flight)
    requires t.newer == s.newer && t.original == s.original && LatestShows(s, fl)
    ensures LatestShows(t, fl)
  {
  }

  lemma ReadShowsLatest(s: State, t: State, f: nat)
    requires Inv(s) && LatestInv(s) && ReadPage(s, t, f)
    ensures LatestShows(t, t.flights[f])
  {
    if s.flights[f].pagesRead == 0 {
      FirstRead(s, t, f);
    } else {
      LaterRead(s, t, f);
    }
  }

  lemma GrowKeepsLatest(s: State, t: State, id: MatchId)
    requires LatestInv(s) && MatchPlayed(s, t, id)
    ensures LatestInv(t)
  {
    forall f | f in t.flights ensures LatestShows(t, t.flights[f]) {
      assert LatestShows(s, s.flights[f]);
      if s.flights[f].pagesRead > 0 {
        RemoteAtGrows(s, t, s.flights[f].newerAt[0], id);
      }
    }
  }

  /** A step that changes one flight and reads no page. */
  lemma LaterPhaseKeepsLatest(s: State, t: State, f: nat)
    requires LatestInv(s) && t.newer == s.newer && t.original == s.original
    requires f in s.flights && f in t.flights && t.flights == s.flights[f := t.flights[f]]
    requires var fl, gl := s.flights[f], t.flights[f];
      gl.pagesRead == fl.pagesRead && gl.results == fl.results && gl.newerAt == fl.newerAt && gl.sizes == fl.sizes
    ensures LatestInv(t)
  {
    assert LatestShows(s, s.flights[f]);
    OthersKeepLatest(s, t, f);
  }

  lemma FewerKeepLatest(s: State, t: State)
    requires LatestInv(s) && t.newer == s.newer && t.original == s.original
    requires forall f :: f in t.flights ==> f in s.flights && t.flights[f] == s.flights[f]
    ensures LatestInv(t)
  {
    forall f | f in t.flights ensures LatestShows(t, t.flights[f]) {
      assert LatestShows(s, s.flights[f]);
    }
  }

  lemma NextKeepsLatest(s: State, t: State)
    requires Inv(s) && LatestInv(s) && Next(s, t)
    ensures LatestInv(t)
  {
    if id :| MatchPlayed(s, t, id) {
      GrowKeepsLatest(s, t, id);
    } else if f :| ReadPage(s, t, f) {
      ReadShowsLatest(s, t, f);
      OthersKeepLatest(s, t, f);
    } else if f, sizes, syncType :| StartSync(s, t, f, sizes, syncType) {
      OthersKeepLatest(s, t, f);
    } else if f :| FindKnown(s, t, f) {
      LaterPhaseKeepsLatest(s, t, f);
    } else if f, loaded :| LoadDetails(s, t, f, loaded) {
      LaterPhaseKeepsLatest(s, t, f);
    } else if f :| InsertRows(s, t, f) {
      LaterPhaseKeepsLatest(s, t, f);
    } else {
      FewerKeepLatest(s, t);
    }
  }

  lemma OthersKeepLatest(s: State, t: State, f: nat)
    requires LatestInv(s) && t.newer == s.newer && t.original == s.original
    requires f in t.flights && t.flights == s.flights[f := t.flights[f]] && LatestShows(t, t.flights[f])
    ensures LatestInv(t)
  {
    forall g | g in t.flights ensures LatestShows(t, t.flights[g]) {
      assert g != f ==> LatestShows(s, s.flights[g]);
    }
  }

  /** The first m arrivals are stored. */
  ghost predicate NoGapUpTo(s: State, m: nat) {
    m <= |s.newer| && forall k :: |s.newer| - m <= k < |s.newer| ==> s.newer[k] in s.stored
  }

  lemma NoGapStays(s: State, t: State, m: nat)
    requires Inv(s) && Next(s, t) && NoGapUpTo(s, m)
    ensures NoGapUpTo(t, m)
  {
    NextKeepsInv(s, t);
    var arrived :| t.newer == arrived + s.newer;
    forall k | |t.newer| - m <= k < |t.newer| ensures t.newer[k] in t.stored {
      assert t.newer[k] == s.newer[k - |arrived|];
    }
  }

  /** A flight whose latest page is fully known or fetched when its rows are inserted. */
  ghost predicate Resolves(s: State, t: State, f: nat) {
    && InsertRows(s, t, f)
    && 0 in s.flights[f].newerAt
    && AllResolved(PageOf(s.flights[f].results, 0), s.flights[f].known + s.flights[f].loaded)
  }

  lemma ShownArrival(s: State, n: nat, count: nat, k: nat)
    requires n <= |s.newer| && |s.newer| - n <= k < |s.newer| && k - (|s.newer| - n) < count
    ensures s.newer[k] in Slice(RemoteAt(s, n), 0, count)
  {
    var at := k - (|s.newer| - n);
    assert RemoteAt(s, n)[at] == s.newer[k];
    assert Slice(RemoteAt(s, n), 0, count)[at] == RemoteAt(s, n)[at];
  }

  lemma ResolvedPageStored(s: State, t: State, f: nat)
    requires Inv(s) && Resolves(s, t, f) && s.flights[f].pagesRead > 0
    ensures forall id :: id in PageOf(s.flights[f].results, 0) ==> id in t.stored
  {
    var fl := s.flights[f];
    assert FlightOk(s, fl);
    assert fl.plan[0] in fl.plan && fl.plan[0].start == 0;
    ResolvedAreStored(fl.plan, fl.results, fl.known, fl.loaded, t.stored);
  }

  /** If the first m arrivals are stored and the page reaches back to them, the first n are. */
  lemma ResolvedCloses(s: State, t: State, f: nat, m: nat)
    requires Inv(s) && LatestInv(s) && Resolves(s, t, f) && NoGapUpTo(s, m)
    requires s.flights[f].newerAt[0] <= m + s.flights[f].sizes.latest
    ensures NoGapUpTo(t, s.flights[f].newerAt[0])
  {
    var fl := s.flights[f];
    var n := fl.newerAt[0];
    assert FlightOk(s, fl) && LatestShows(s, fl);
    assert fl.plan != [];
    ResolvedPageStored(s, t, f);
    forall k | |t.newer| - n <= k < |t.newer| ensures t.newer[k] in t.stored {
      if k < |s.newer| - m {
        ShownArrival(s, n, fl.sizes.latest, k);
      }
    }
  }

  // ---- over whole runs ----

  /** A step of the run that inserts the rows of a sync with a fully resolved latest page. */
  datatype Closing = Closing(step: nat, flight: nat)

  ghost predicate IsClosing(run: seq<State>, c: Closing) {
    c.step + 1 < |run| && Resolves(run[c.step], run[c.step + 1], c.flight)
  }

  /** How many matches had arrived when that latest page was read, and how far back it reached. */
  ghost function SeenBy(run: seq<State>, c: Closing): nat
    requires IsClosing(run, c)
  {
    run[c.step].flights[c.flight].newerAt[0]
  }

  ghost function Reach(run: seq<State>, c: Closing): nat
    requires IsClosing(run, c)
  {
    run[c.step].flights[c.flight].sizes.latest
  }

  /** The latest page of c reaches back to the first sync. */
  ghost predicate StartsChain(run: seq<State>, c: Closing) {
    IsClosing(run, c) && SeenBy(run, c) <= Reach(run, c)
  }

  /** The latest page of c reaches back to what that of b had seen. */
  ghost predicate Links(run: seq<State>, b: Closing, c: Closing) {
    && IsClosing(run, b) && IsClosing(run, c) && b.step < c.step
    && SeenBy(run, c) <= SeenBy(run, b) + Reach(run, c)
  }

  ghost predicate Chained(run: seq<State>, cs: seq<Closing>) {
    && cs != [] && StartsChain(run, cs[0])
    && forall k :: 0 < k < |cs| ==> Links(run, cs[k - 1], cs[k])
  }

  lemma {:induction false} RunKeepsLatest(run: seq<State>, i: nat)
    requires Run(run) && i < |run|
    ensures LatestInv(run[i])
  {
    if i == 0 {
    } else {
      RunKeepsLatest(run, i - 1);
      RunKeepsInv(run, i - 1);
      NextKeepsLatest(run[i - 1], run[i]);
    }
  }

  lemma NoGapStep(run: seq<State>, j: nat, m: nat)
    requires Run(run) && j + 1 < |run| && NoGapUpTo(run[j], m)
    ensures NoGapUpTo(run[j + 1], m)
  {
    RunKeepsInv(run, j);
    NoGapStays(run[j], run[j + 1], m);
  }

  lemma {:induction false} AlongSteps(good: nat -> bool, i: nat, j: nat)
    requires i <= j && good(i) && forall k: nat :: i <= k < j && good(k) ==> good(k + 1)
    ensures good(j)
  {
    if i == j {
    } else {
      AlongSteps(good, i, j - 1);
    }
  }

  lemma NoGapAlong(run: seq<State>, i: nat, j: nat, m: nat)
    requires Run(run) && i <= j < |run| && NoGapUpTo(run[i], m)
    ensures NoGapUpTo(run[j], m)
  {
    var good := (k: nat) => k < |run| && NoGapUpTo(run[k], m);
    forall k: nat | i <= k < j && good(k) ensures good(k + 1) {
      NoGapStep(run, k, m);
    }
    AlongSteps(good, i, j);
  }

  lemma ClosingStep(run: seq<State>, c: Closing, m: nat)
    requires Run(run) && IsClosing(run, c) && NoGapUpTo(run[c.step], m)
    requires SeenBy(run, c) <= m + Reach(run, c)
    ensures NoGapUpTo(run[c.step + 1], SeenBy(run, c))
  {
    RunKeepsInv(run, c.step);
    RunKeepsLatest(run, c.step);
    ResolvedCloses(run[c.step], run[c.step + 1], c.flight, m);
  }

  lemma NextLink(run: seq<State>, from: nat, m: nat, c: Closing)
    requires Run(run) && from <= c.step && IsClosing(run, c) && NoGapUpTo(run[from], m)
    requires SeenBy(run, c) <= m + Reach(run, c)
    ensures NoGapUpTo(run[c.step + 1], SeenBy(run, c))
  {
    NoGapAlong(run, from, c.step, m);
    ClosingStep(run, c, m);
  }

  /** After the closing the run has no gap up to what it had seen. */
  ghost predicate ClosedAt(run: seq<State>, c: Closing) {
    IsClosing(run, c) && NoGapUpTo(run[c.step + 1], SeenBy(run, c))
  }

  lemma FirstLink(run: seq<State>, c: Closing)
    requires Run(run) && StartsChain(run, c)
    ensures ClosedAt(run, c)
  {
    NextLink(run, c.step, 0, c);
  }

  lemma LaterLink(run: seq<State>, b: Closing, c: Closing)
    requires Run(run) && Links(run, b, c) && ClosedAt(run, b)
    ensures ClosedAt(run, c)
  {
    NextLink(run, b.step + 1, SeenBy(run, b), c);
  }

  lemma {:induction false} AlongChain(cs: seq<Closing>, closed: Closing -> bool, k: nat)
    requires k < |cs| && closed(cs[0])
    requires forall j :: 0 < j < |cs| && closed(cs[j - 1]) ==> closed(cs[j])
    ensures closed(cs[k])
  {
    if k == 0 {
    } else {
      AlongChain(cs, closed, k - 1);
    }
  }

  lemma ChainCloses(run: seq<State>, cs: seq<Closing>)
    requires Run(run) && Chained(run, cs)
    ensures ClosedAt(run, cs[|cs| - 1])
  {
    var closed := (c: Closing) => ClosedAt(run, c);
    FirstLink(run, cs[0]);
    forall j | 0 < j < |cs| && closed(cs[j - 1]) ensures closed(cs[j]) {
      LaterLink(run, cs[j - 1], cs[j]);
    }
    AlongChain(cs, closed, |cs| - 1);
  }

  /** Everything but the arrivals after the first n is stored. */
  ghost predicate StoredBut(s: State, n: nat) {
    forall k :: |s.newer| - n <= k < |s.Remote()| && k >= 0 ==> s.Remote()[k] in s.stored
  }

  lemma NoGapAndComplete(s: State, n: nat)
    requires Inv(s) && s.cursor.complete && NoGapUpTo(s, n)
    ensures StoredBut(s, n)
  {
    forall k | |s.newer| - n <= k < |s.Remote()| && k >= 0 ensures s.Remote()[k] in s.stored {
      if k < |s.newer| {
        assert s.Remote()[k] == s.newer[k];
      } else {
        assert s.Remote()[k] == s.original[k - |s.newer|];
      }
    }
  }

  /** The whole history has no gap below the last chained latest page: once the backfill is complete, every match
      but those that arrived after that page was read is stored, whatever other syncs failed or overlapped. */
  lemma ChainedHistoryHasNoGap(run: seq<State>, cs: seq<Closing>, i: nat)
    requires Run(run) && Chained(run, cs) && cs[|cs| - 1].step < i < |run| && run[i].cursor.complete
    ensures IsClosing(run, cs[|cs| - 1]) && StoredBut(run[i], SeenBy(run, cs[|cs| - 1]))
  {
    var c := cs[|cs| - 1];
    ChainCloses(run, cs);
    NoGapAlong(run, c.step + 1, i, SeenBy(run, c));
    RunKeepsInv(run, i);
    NoGapAndComplete(run[i], SeenBy(run, c));
  }

  // ---- exactly when, for one account refreshed round by round ----

  function ListAfter(list: seq<MatchId>, rounds: seq<seq<MatchId>>): (r: seq<MatchId>) {
    if rounds == [] then list else rounds[|rounds| - 1] + ListAfter(list, rounds[..|rounds| - 1])
  }

  /** Each round some matches arrive, newest first, and the account is refreshed. */
  function AfterRounds(a: Account, list: seq<MatchId>, rounds: seq<seq<MatchId>>, sizes: PageSizes,
                       loads: MatchId -> bool): (r: Account)
  {
    if rounds == [] then a
    else
      var before := AfterRounds(a, list, rounds[..|rounds| - 1], sizes, loads);
      BackfillProgress.Refresh(before, ListAfter(list, rounds), sizes, loads)
  }

  function LatestPage(list: seq<MatchId>, sizes: PageSizes): (r: seq<MatchId>) {
    Slice(list, 0, sizes.latest)
  }

  lemma FlatOfOne(r: PageRequest, results: map<nat, seq<MatchId>>)
    ensures Flat([r], results) == PageOf(results, r.start)
  {
    assert [r][1..] == [];
    assert Flat([], results) == [];
  }

  /** A refresh of a complete account stores its latest page and nothing else. */
  lemma CompleteRefresh(a: Account, list: seq<MatchId>, sizes: PageSizes, loads: MatchId -> bool)
    requires sizes.Valid() && EveryDetailLoads(loads) && a.cursor.complete
    ensures var b := BackfillProgress.Refresh(a, list, sizes, loads);
      b.cursor.complete && b.stored == a.stored + Elements(LatestPage(list, sizes))
  {
    var plan := Plan(a.cursor, sizes);
    var results := ResultsOf(plan, PagesOf(list));
    var known := KnownIds(AllIds(plan, results), a.stored);
    var loaded := LoadedIds(RequestedIds(plan, results, SyncType.Refresh, known), loads);
    var resolved := RefreshResolves(a, list, sizes, loads);
    assert plan == [PageRequest(0, sizes.latest, Latest)];
    assert plan[0] in plan && PageResolved(plan[0], list, results, resolved);
    FlatOfOne(plan[0], results);
    RefreshUsable(a, list, sizes, loads);
    PageIsNewOrStored(a, list, sizes, loads);
  }

  lemma RefreshUsable(a: Account, list: seq<MatchId>, sizes: PageSizes, loads: MatchId -> bool)
    requires sizes.Valid() && EveryDetailLoads(loads)
    ensures var plan := Plan(a.cursor, sizes);
      var results := ResultsOf(plan, PagesOf(list));
      var known := KnownIds(AllIds(plan, results), a.stored);
      var loaded := LoadedIds(RequestedIds(plan, results, SyncType.Refresh, known), loads);
      && Usable(results, SyncType.Refresh, loaded)
      && BackfillProgress.Refresh(a, list, sizes, loads).stored == a.stored + NewRows(plan, results, known, loaded)
  {
    var plan := Plan(a.cursor, sizes);
    var results := ResultsOf(plan, PagesOf(list));
    var known := KnownIds(AllIds(plan, results), a.stored);
    var requested := RequestedIds(plan, results, SyncType.Refresh, known);
    var loaded := LoadedIds(requested, loads);
    var recent := RecentIds(results, SyncType.Refresh);
    forall id | id in recent ensures id in loaded {
      assert id in Elements(PriorityIds(results, SyncType.Refresh));
      assert id in requested;
    }
    AllCountLoaded(recent, loaded);
  }

  lemma PageIsNewOrStored(a: Account, list: seq<MatchId>, sizes: PageSizes, loads: MatchId -> bool)
    requires sizes.Valid() && EveryDetailLoads(loads)
    ensures var plan := Plan(a.cursor, sizes);
      var results := ResultsOf(plan, PagesOf(list));
      var known := KnownIds(AllIds(plan, results), a.stored);
      var loaded := LoadedIds(RequestedIds(plan, results, SyncType.Refresh, known), loads);
      a.stored + NewRows(plan, results, known, loaded) == a.stored + Elements(Flat(plan, results))
  {
    var plan := Plan(a.cursor, sizes);
    var results := ResultsOf(plan, PagesOf(list));
    var known := KnownIds(AllIds(plan, results), a.stored);
    var requested := RequestedIds(plan, results, SyncType.Refresh, known);
    RequestsAreDistinct(plan, results, SyncType.Refresh, known);
    assert Elements(AllIds(plan, results)) == Elements(Flat(plan, results));
    forall id | id in AllIds(plan, results) ensures id in known || id in LoadedIds(requested, loads) {
    }
  }

  /** What holds after every round: only listed matches were added, and the latest page is stored. */
  ghost predicate RoundOk(a: Account, b: Account, list: seq<MatchId>, sizes: PageSizes) {
    && b.cursor.complete && b.stored <= a.stored + Elements(list)
    && forall k :: 0 <= k < |list| && k < sizes.latest ==> list[k] in b.stored
  }

  ghost predicate AllStored(b: Account, list: seq<MatchId>) {
    forall id :: id in list ==> id in b.stored
  }

  lemma PageMembers(list: seq<MatchId>, sizes: PageSizes, k: nat)
    requires Distinct(list) && k < |list|
    ensures list[k] in Elements(LatestPage(list, sizes)) <==> k < sizes.latest
  {
    var page := LatestPage(list, sizes);
    if k < sizes.latest {
      assert page[k] == list[k];
    }
    forall j | 0 <= j < |page| ensures page[j] == list[j] && j < sizes.latest {
    }
  }

  /** One round: the gap-free list stays gap-free exactly when the arrivals fit on the latest page, and a gap is
      never closed. */
  lemma RoundExactly(a: Account, b: Account, list: seq<MatchId>, arrived: seq<MatchId>, sizes: PageSizes,
                     loads: MatchId -> bool)
    requires sizes.Valid() && EveryDetailLoads(loads) && RoundOk(a, b, list, sizes) && Distinct(arrived + list)
    requires forall id :: id in arrived ==> id !in a.stored
    ensures var c := BackfillProgress.Refresh(b, arrived + list, sizes, loads);
      && RoundOk(a, c, arrived + list, sizes)
      && (AllStored(c, arrived + list) <==> AllStored(b, list) && |arrived| <= sizes.latest)
  {
    var all := arrived + list;
    var c := BackfillProgress.Refresh(b, all, sizes, loads);
    CompleteRefresh(b, all, sizes, loads);
    forall k | 0 <= k < |all| ensures all[k] in Elements(LatestPage(all, sizes)) <==> k < sizes.latest {
      PageMembers(all, sizes, k);
    }
    forall id | id in LatestPage(all, sizes) ensures id in Elements(all) {
    }
    ArrivedNotStored(a, b, list, arrived, sizes);
    if AllStored(c, all) {
      OldStayStored(b, c, list, arrived, sizes);
    }
  }

  lemma ArrivedNotStored(a: Account, b: Account, list: seq<MatchId>, arrived: seq<MatchId>, sizes: PageSizes)
    requires RoundOk(a, b, list, sizes) && Distinct(arrived + list)
    requires forall id :: id in arrived ==> id !in a.stored
    ensures forall id :: id in arrived ==> id !in b.stored
  {
    forall id | id in arrived ensures id !in list {
      var i :| 0 <= i < |arrived| && arrived[i] == id;
      forall j | 0 <= j < |list| ensures list[j] != id {
        assert (arrived + list)[i] == id && (arrived + list)[|arrived| + j] == list[j];
      }
    }
  }

  lemma OldStayStored(b: Account, c: Account, list: seq<MatchId>, arrived: seq<MatchId>, sizes: PageSizes)
    requires AllStored(c, arrived + list) && c.stored == b.stored + Elements(LatestPage(arrived + list, sizes))
    requires forall k :: 0 <= k < |list| && k < sizes.latest ==> list[k] in b.stored
    requires forall k :: 0 <= k < |arrived + list| ==>
      ((arrived + list)[k] in Elements(LatestPage(arrived + list, sizes)) <==> k < sizes.latest)
    requires forall id :: id in arrived ==> id !in b.stored
    ensures AllStored(b, list) && |arrived| <= sizes.latest
  {
    var all := arrived + list;
    forall id | id in list ensures id in b.stored {
      var k :| 0 <= k < |list| && list[k] == id;
      assert all[|arrived| + k] == id && id in all;
    }
    if arrived != [] {
      var k := |arrived| - 1;
      assert all[k] == arrived[k] && all[k] in all && arrived[k] in arrived;
    }
  }

  ghost predicate AllFit(rounds: seq<seq<MatchId>>, sizes: PageSizes) {
    forall k :: 0 <= k < |rounds| ==> |rounds[k]| <= sizes.latest
  }

  ghost predicate FreshRounds(a: Account, rounds: seq<seq<MatchId>>) {
    forall k, id :: 0 <= k < |rounds| && id in rounds[k] ==> id !in a.stored
  }

  lemma LastRound(a: Account, rounds: seq<seq<MatchId>>, sizes: PageSizes)
    requires rounds != [] && FreshRounds(a, rounds)
    ensures var n := |rounds| - 1;
      && FreshRounds(a, rounds[..n]) && (forall id :: id in rounds[n] ==> id !in a.stored)
      && (AllFit(rounds, sizes) <==> AllFit(rounds[..n], sizes) && |rounds[n]| <= sizes.latest)
  {
    var n := |rounds| - 1;
    forall k | 0 <= k < n ensures rounds[..n][k] == rounds[k] {
    }
  }

  /** A complete account without gaps has none after any number of rounds exactly when no round brought more
      matches than a latest page holds. */
  lemma {:induction false} FollowUpExactly(a: Account, list: seq<MatchId>, rounds: seq<seq<MatchId>>,
                                           sizes: PageSizes, loads: MatchId -> bool)
    requires sizes.Valid() && EveryDetailLoads(loads) && a.cursor.complete && AllStored(a, list)
    requires Distinct(ListAfter(list, rounds)) && FreshRounds(a, rounds)
    ensures var b := AfterRounds(a, list, rounds, sizes, loads);
      && RoundOk(a, b, ListAfter(list, rounds), sizes)
      && (AllStored(b, ListAfter(list, rounds)) <==> AllFit(rounds, sizes))
    decreases |rounds|
  {
    if rounds == [] {
    } else {
      var n := |rounds| - 1;
      var earlier := ListAfter(list, rounds[..n]);
      DistinctTail(rounds[n], earlier);
      LastRound(a, rounds, sizes);
      FollowUpExactly(a, list, rounds[..n], sizes, loads);
      RoundExactly(a, AfterRounds(a, list, rounds[..n], sizes, loads), earlier, rounds[n], sizes, loads);
    }
  }

  lemma DistinctTail(a: seq<MatchId>, b: seq<MatchId>)
    requires Distinct(a + b)
    ensures Distinct(b)
  {
    forall i, j | 0 <= i < j < |b| ensures b[i] != b[j] {
      assert (a + b)[|a| + i] == b[i] && (a + b)[|a| + j] == b[j];
    }
  }
}
