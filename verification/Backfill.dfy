/** Planning the pages of one match-history sync and advancing the backfill cursor. */
module Backfill {
  import opened Prelude

  datatype MatchId = MatchId(value: string)

  datatype PageKind = Latest | History

  datatype PageRequest = PageRequest(start: nat, count: nat, kind: PageKind)

  /** How deep the history is stored, and whether its end has been reached. */
  datatype Cursor = Cursor(nextStart: nat, complete: bool)

  /** Page sizes of one sync; the configuration schema keeps both sizes positive. */
  datatype PageSizes = PageSizes(latest: nat, page: nat, extraPages: nat) {
    predicate Valid() { latest > 0 && page > 0 }
  }

  // ---- planning ----

  function HistoryPages(start: nat, size: nat, n: nat): (r: seq<PageRequest>)
    decreases n
  {
    if n == 0 then [] else [PageRequest(start, size, History)] + HistoryPages(start + size, size, n - 1)
  }

  /** Where the first history page of a sync starts. */
  function FirstHistoryStart(c: Cursor, sizes: PageSizes): (r: nat) {
    if c.nextStart == 0 then sizes.latest else c.nextStart
  }

  function Plan(c: Cursor, sizes: PageSizes): (r: seq<PageRequest>) {
    [PageRequest(0, sizes.latest, Latest)]
    + if c.complete then [] else HistoryPages(FirstHistoryStart(c, sizes), sizes.page, sizes.extraPages)
  }

  /** Setting a key of an insertion-ordered map whose values carry their key. */
  function PutByStart(rs: seq<PageRequest>, r: PageRequest): (out: seq<PageRequest>) {
    if rs == [] then [r]
    else if rs[0].start == r.start then [r] + rs[1..]
    else [rs[0]] + PutByStart(rs[1..], r)
  }

  function InsertByStart(r: PageRequest, rs: seq<PageRequest>): (out: seq<PageRequest>) {
    if rs == [] || r.start <= rs[0].start then [r] + rs else [rs[0]] + InsertByStart(r, rs[1..])
  }

  /** The stable sort by start. */
  function SortByStart(rs: seq<PageRequest>): (out: seq<PageRequest>) {
    if rs == [] then [] else InsertByStart(rs[0], SortByStart(rs[1..]))
  }

  ghost predicate StartsIncrease(rs: seq<PageRequest>) {
    forall i, j :: 0 <= i < j < |rs| ==> rs[i].start < rs[j].start
  }

  lemma {:induction false} PutFreshAppends(rs: seq<PageRequest>, r: PageRequest)
    requires forall q :: q in rs ==> q.start != r.start
    ensures PutByStart(rs, r) == rs + [r]
  {
    if rs == [] {
    } else {
      assert rs[0] in rs;
      PutFreshAppends(rs[1..], r);
    }
  }

  lemma {:induction false} SortOfSorted(rs: seq<PageRequest>)
    requires StartsIncrease(rs)
    ensures SortByStart(rs) == rs
  {
    if rs == [] {
    } else {
      SortOfSorted(rs[1..]);
      if |rs| > 1 {
        assert rs[0].start < rs[1].start;
      }
    }
  }

  lemma {:induction false} HistoryPagesIncrease(start: nat, size: nat, n: nat)
    requires size > 0
    ensures StartsIncrease(HistoryPages(start, size, n))
    ensures forall r :: r in HistoryPages(start, size, n) ==> r.start >= start && r.count == size && r.kind == History
    decreases n
  {
    if n == 0 {
    } else {
      HistoryPagesIncrease(start + size, size, n - 1);
      EarlierFirst(PageRequest(start, size, History), HistoryPages(start + size, size, n - 1));
    }
  }

  lemma EarlierFirst(r: PageRequest, rest: seq<PageRequest>)
    requires StartsIncrease(rest) && forall q :: q in rest ==> r.start < q.start
    ensures StartsIncrease([r] + rest)
    ensures forall q :: q in [r] + rest <==> q == r || q in rest
  {
    forall j | 0 <= j < |rest| ensures r.start < rest[j].start {
      assert rest[j] in rest;
    }
  }

  /** Starts of a plan strictly increase, so no page overwrites another and sorting changes nothing. */
  lemma PlanIncreases(c: Cursor, sizes: PageSizes)
    requires sizes.Valid()
    ensures StartsIncrease(Plan(c, sizes))
  {
    var first := FirstHistoryStart(c, sizes);
    HistoryPagesIncrease(first, sizes.page, sizes.extraPages);
    var pages := HistoryPages(first, sizes.page, sizes.extraPages);
    forall j | 0 <= j < |pages| ensures pages[j].start > 0 {
      assert pages[j] in pages;
    }
  }

  method BuildMatchHistoryPageRequests(c: Cursor, sizes: PageSizes) returns (r: seq<PageRequest>)
    requires sizes.Valid()
    ensures r == Plan(c, sizes)
  {
    var requests := [PageRequest(0, sizes.latest, Latest)];
    if c.complete {
      return requests;
    }
    var cursor := if c.nextStart == 0 then sizes.latest else c.nextStart;
    var index := 0;
    while index < sizes.extraPages
      invariant index <= sizes.extraPages && cursor > 0
      invariant forall q :: q in requests ==> q.start < cursor
      invariant requests + HistoryPages(cursor, sizes.page, sizes.extraPages - index) == Plan(c, sizes)
    {
      var request := PageRequest(cursor, sizes.page, History);
      PutFreshAppends(requests, request);
      ConcatAssociative(requests, [request],
                        HistoryPages(cursor + sizes.page, sizes.page, sizes.extraPages - index - 1));
      requests := PutByStart(requests, request);
      cursor := cursor + sizes.page;
      index := index + 1;
    }
    assert requests + [] == requests;
    PlanIncreases(c, sizes);
    SortOfSorted(requests);
    r := SortByStart(requests);
  }

  // ---- advancing ----

  function PageOf(results: map<nat, seq<MatchId>>, start: nat): (r: seq<MatchId>) {
    if start in results then results[start] else []
  }

  predicate AllResolved(ids: seq<MatchId>, resolved: set<MatchId>) {
    forall id | id in ids :: id in resolved
  }

  function HistoryOnly(rs: seq<PageRequest>): (r: seq<PageRequest>) {
    if rs == [] then [] else (if rs[0].kind == History then [rs[0]] else []) + HistoryOnly(rs[1..])
  }

  function CountAtZero(rs: seq<PageRequest>): (r: nat) {
    if rs == [] then 0 else if rs[0].start == 0 then rs[0].count else CountAtZero(rs[1..])
  }

  /** The walk over the history pages from `next` on. */
  function AdvanceFrom(next: nat, rs: seq<PageRequest>, results: map<nat, seq<MatchId>>, resolved: set<MatchId>)
    : (r: Cursor)
    decreases rs
  {
    if rs == [] || rs[0].start != next then Cursor(next, false)
    else
      var ids := PageOf(results, rs[0].start);
      if !AllResolved(ids, resolved) then Cursor(next, false)
      else if |ids| < rs[0].count then Cursor(rs[0].start + |ids|, true)
      else AdvanceFrom(rs[0].start + rs[0].count, rs[1..], results, resolved)
  }

  function Advance(c: Cursor, plan: seq<PageRequest>, results: map<nat, seq<MatchId>>, resolved: set<MatchId>)
    : (r: Cursor)
  {
    if c.complete then Cursor(c.nextStart, true)
    else if c.nextStart == 0 then
      var latest := PageOf(results, 0);
      if !AllResolved(latest, resolved) then Cursor(0, false)
      else if |latest| < CountAtZero(plan) then Cursor(0, true)
      else AdvanceFrom(CountAtZero(plan), SortByStart(HistoryOnly(plan)), results, resolved)
    else AdvanceFrom(c.nextStart, SortByStart(HistoryOnly(plan)), results, resolved)
  }

  method AdvanceMatchHistoryCursor(
    c: Cursor, plan: seq<PageRequest>, results: map<nat, seq<MatchId>>, resolved: set<MatchId>)
    returns (r: Cursor)
    ensures r == Advance(c, plan, results, resolved)
  {
    if c.complete {
      return Cursor(c.nextStart, true);
    }
    var nextStart: nat := c.nextStart;
    if nextStart == 0 {
      var latest := PageOf(results, 0);
      if !AllResolved(latest, resolved) {
        return Cursor(0, false);
      }
      if |latest| < CountAtZero(plan) {
        return Cursor(0, true);
      }
      nextStart := CountAtZero(plan);
    }
    var requests := SortByStart(HistoryOnly(plan));
    var i := 0;
    while i < |requests|
      invariant i <= |requests|
      invariant AdvanceFrom(nextStart, requests[i..], results, resolved) == Advance(c, plan, results, resolved)
    {
      var request := requests[i];
      assert requests[i..][1..] == requests[i + 1..];
      if request.start != nextStart {
        break;
      }
      var ids := PageOf(results, request.start);
      if !AllResolved(ids, resolved) {
        return Cursor(nextStart, false);
      }
      if |ids| < request.count {
        return Cursor(request.start + |ids|, true);
      }
      nextStart := request.start + request.count;
      i := i + 1;
    }
    r := Cursor(nextStart, false);
  }

  lemma {:induction false} HistoryOnlyOfHistory(rs: seq<PageRequest>)
    requires forall r :: r in rs ==> r.kind == History
    ensures HistoryOnly(rs) == rs
  {
    if rs == [] {
    } else {
      assert rs[0] in rs;
      HistoryOnlyOfHistory(rs[1..]);
    }
  }

  /** The history part of a plan, sorted, is the contiguous run of pages from the cursor on. */
  lemma PlanHistory(c: Cursor, sizes: PageSizes)
    requires sizes.Valid() && !c.complete
    ensures CountAtZero(Plan(c, sizes)) == sizes.latest
    ensures SortByStart(HistoryOnly(Plan(c, sizes)))
         == HistoryPages(FirstHistoryStart(c, sizes), sizes.page, sizes.extraPages)
  {
    var pages := HistoryPages(FirstHistoryStart(c, sizes), sizes.page, sizes.extraPages);
    HistoryPagesIncrease(FirstHistoryStart(c, sizes), sizes.page, sizes.extraPages);
    HistoryOnlyOfHistory(pages);
    SortOfSorted(pages);
    var plan := Plan(c, sizes);
    assert plan[0] == PageRequest(0, sizes.latest, Latest) && plan[1..] == pages;
    assert HistoryOnly(plan) == pages;
  }

  /** The walk with the start comparison removed. */
  ghost function AdvanceUnchecked(next: nat, rs: seq<PageRequest>, results: map<nat, seq<MatchId>>,
                                  resolved: set<MatchId>)
    : Cursor
    decreases rs
  {
    if rs == [] then Cursor(next, false)
    else
      var ids := PageOf(results, rs[0].start);
      if !AllResolved(ids, resolved) then Cursor(next, false)
      else if |ids| < rs[0].count then Cursor(rs[0].start + |ids|, true)
      else AdvanceUnchecked(rs[0].start + rs[0].count, rs[1..], results, resolved)
  }

  /** Planned pages are contiguous with the cursor: the mismatch break never decides the outcome. */
  lemma {:induction false} BreakNeverFires(start: nat, size: nat, n: nat, results: map<nat, seq<MatchId>>,
                                           resolved: set<MatchId>)
    ensures AdvanceFrom(start, HistoryPages(start, size, n), results, resolved)
         == AdvanceUnchecked(start, HistoryPages(start, size, n), results, resolved)
    decreases n
  {
    if n == 0 {
    } else {
      BreakNeverFires(start + size, size, n - 1, results, resolved);
    }
  }

  // ---- what an advance proves about the stored prefix ----

  /** The first e of the originally listed matches are stored. */
  ghost predicate StoredTo(original: seq<MatchId>, stored: set<MatchId>, e: int) {
    forall j :: 0 <= j < |original| && j < e ==> original[j] in stored
  }

  /** What reading a page says about the original matches, when `newer` matches precede them. */
  ghost predicate PageShows(original: seq<MatchId>, ids: seq<MatchId>, start: nat, count: nat, newer: nat) {
    && |ids| <= count
    && forall j :: 0 <= j < |original| && start <= newer + j && (newer + j < start + count || |ids| < count)
                   ==> original[j] in ids
  }

  /** Reading a slice of a list that only grew at its front. */
  lemma ReadingShows(newer: seq<MatchId>, original: seq<MatchId>, start: nat, count: nat)
    ensures PageShows(original, Slice(newer + original, start, count), start, count, |newer|)
  {
    var list := newer + original;
    var ids := Slice(list, start, count);
    forall j | 0 <= j < |original| && start <= |newer| + j && (|newer| + j < start + count || |ids| < count)
      ensures original[j] in ids
    {
      assert list[|newer| + j] == original[j];
      assert ids[|newer| + j - start] == original[j];
    }
  }

  /** The remote answer to a page request. */
  function Slice(list: seq<MatchId>, start: nat, count: nat): (r: seq<MatchId>)
    ensures |r| <= count
  {
    if start >= |list| then []
    else if start + count >= |list| then list[start..]
    else list[start..start + count]
  }

  /** Pages read in request order while the list may have grown between them. */
  ghost predicate PagesShow(original: seq<MatchId>, rs: seq<PageRequest>, results: map<nat, seq<MatchId>>,
                            newerAt: map<nat, nat>, from: nat, now: nat) {
    && (forall r :: r in rs ==> r.start in newerAt && from <= newerAt[r.start] <= now)
    && (forall r :: r in rs ==> PageShows(original, PageOf(results, r.start), r.start, r.count, newerAt[r.start]))
    && (forall i, j :: 0 <= i < j < |rs| ==> newerAt[rs[i].start] <= newerAt[rs[j].start])
  }

  /** What the pages after the first one show, from the moment the first one was read. */
  lemma LaterPagesShow(original: seq<MatchId>, rs: seq<PageRequest>, results: map<nat, seq<MatchId>>,
                       newerAt: map<nat, nat>, from: nat, now: nat)
    requires rs != [] && PagesShow(original, rs, results, newerAt, from, now)
    ensures rs[0].start in newerAt && from <= newerAt[rs[0].start] <= now
    ensures PagesShow(original, rs[1..], results, newerAt, newerAt[rs[0].start], now)
  {
    assert rs[0] in rs;
    forall r | r in rs[1..] ensures r in rs && r.start in newerAt && newerAt[rs[0].start] <= newerAt[r.start] {
      var i :| 1 <= i < |rs| && rs[i] == r;
    }
  }

  lemma StoredPageExtends(original: seq<MatchId>, stored: set<MatchId>, ids: seq<MatchId>, start: nat, count: nat,
                          before: nat, newer: nat)
    requires StoredTo(original, stored, start - before) && before <= newer
    requires PageShows(original, ids, start, count, newer) && forall id :: id in ids ==> id in stored
    ensures StoredTo(original, stored, start + count - newer)
    ensures |ids| < count ==> StoredTo(original, stored, |original|)
  {
    forall j | 0 <= j < |original| && (newer + j < start + count || |ids| < count)
      ensures original[j] in stored
    {
      if start <= newer + j {
        assert original[j] in ids;
      }
    }
  }

  lemma {:induction false} AdvanceFromIsSafe(
    original: seq<MatchId>, stored: set<MatchId>, next: nat, before: nat, now: nat, rs: seq<PageRequest>,
    results: map<nat, seq<MatchId>>, newerAt: map<nat, nat>, resolved: set<MatchId>)
    requires before <= now && StoredTo(original, stored, next - before)
    requires PagesShow(original, rs, results, newerAt, before, now)
    requires forall r, id :: r in rs && id in PageOf(results, r.start) && id in resolved ==> id in stored
    ensures var c := AdvanceFrom(next, rs, results, resolved);
      StoredTo(original, stored, c.nextStart - now) && (c.complete ==> StoredTo(original, stored, |original|))
    decreases rs
  {
    if rs == [] || rs[0].start != next {
    } else if AllResolved(PageOf(results, next), resolved) {
      var ids := PageOf(results, next);
      assert rs[0] in rs;
      StoredPageExtends(original, stored, ids, next, rs[0].count, before, newerAt[next]);
      if |ids| == rs[0].count {
        LaterPagesShow(original, rs, results, newerAt, before, now);
        AdvanceFromIsSafe(original, stored, next + rs[0].count, newerAt[next], now, rs[1..], results, newerAt,
                          resolved);
      }
    }
  }
}
