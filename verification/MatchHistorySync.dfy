/** One match-history sync: which details it requests, what it stores, and where it leaves the cursor. */
module MatchHistorySync {
  import opened Backfill
  import opened Prelude

  datatype SyncType = Initial | Refresh

  // ---- id lists ----

  /** The ids of all pages in request order. */
  function Flat(plan: seq<PageRequest>, results: map<nat, seq<MatchId>>): (r: seq<MatchId>) {
    if plan == [] then [] else PageOf(results, plan[0].start) + Flat(plan[1..], results)
  }

  /** The list without later repetitions, as a set keeps insertion order. */
  function Dedupe(ids: seq<MatchId>): (r: seq<MatchId>)
    ensures Distinct(r) && Elements(r) == Elements(ids)
  {
    if ids == [] then []
    else
      var n := |ids| - 1;
      var rest := Dedupe(ids[..n]);
      assert Elements(ids) == Elements(ids[..n]) + {ids[n]};
      assert ids[n] in ids[..n] ==> ids[n] in Elements(rest);
      if ids[n] in ids[..n] then rest else rest + [ids[n]]
  }

  function Without(ids: seq<MatchId>, left: set<MatchId>): (r: seq<MatchId>)
    ensures forall id :: id in r <==> id in ids && id !in left
    ensures Distinct(ids) ==> Distinct(r)
  {
    if ids == [] then []
    else
      var n := |ids| - 1;
      assert ids == ids[..n] + [ids[n]];
      Without(ids[..n], left) + if ids[n] in left then [] else [ids[n]]
  }

  function AllIds(plan: seq<PageRequest>, results: map<nat, seq<MatchId>>): (r: seq<MatchId>) {
    Dedupe(Flat(plan, results))
  }

  /** The newest matches, whose details the summary needs whether stored or not. */
  function RecentIds(results: map<nat, seq<MatchId>>, syncType: SyncType): (r: seq<MatchId>) {
    var recent := PageOf(results, 0);
    if syncType == Initial || |recent| < 10 then recent else recent[..10]
  }

  function PriorityIds(results: map<nat, seq<MatchId>>, syncType: SyncType): (r: seq<MatchId>) {
    Dedupe(RecentIds(results, syncType))
  }

  function BackgroundIds(plan: seq<PageRequest>, results: map<nat, seq<MatchId>>, syncType: SyncType,
                         known: set<MatchId>)
    : (r: seq<MatchId>)
  {
    Without(AllIds(plan, results), Elements(PriorityIds(results, syncType)) + known)
  }

  /** Every detail request of one sync, in order. */
  function RequestedIds(plan: seq<PageRequest>, results: map<nat, seq<MatchId>>, syncType: SyncType,
                        known: set<MatchId>)
    : (r: seq<MatchId>)
  {
    PriorityIds(results, syncType) + BackgroundIds(plan, results, syncType, known)
  }

  function CountLoaded(ids: seq<MatchId>, loaded: set<MatchId>): (r: nat) {
    if ids == [] then 0 else (if ids[0] in loaded then 1 else 0) + CountLoaded(ids[1..], loaded)
  }

  /** Whether enough recent details loaded; otherwise the sync throws before storing anything. */
  predicate Usable(results: map<nat, seq<MatchId>>, syncType: SyncType, loaded: set<MatchId>) {
    var recent := RecentIds(results, syncType);
    recent == [] || CountLoaded(recent, loaded) >= if |recent| < 5 then |recent| else 5
  }

  /** The ids whose rows the sync inserts. */
  function NewRows(plan: seq<PageRequest>, results: map<nat, seq<MatchId>>, known: set<MatchId>, loaded: set<MatchId>)
    : (r: set<MatchId>)
  {
    set id | id in AllIds(plan, results) && id !in known && id in loaded
  }

  // ---- fetching details ----

  function Chunks(ids: seq<MatchId>, size: nat): (r: seq<seq<MatchId>>)
    requires size > 0
  {
    if |ids| <= size then (if ids == [] then [] else [ids])
    else [ids[..size]] + Chunks(ids[size..], size)
  }

  function Joined(chunks: seq<seq<MatchId>>): (r: seq<MatchId>) {
    if chunks == [] then [] else chunks[0] + Joined(chunks[1..])
  }

  lemma {:induction false} ChunksBounded(ids: seq<MatchId>, size: nat)
    requires size > 0
    ensures forall c :: c in Chunks(ids, size) ==> 0 < |c| <= size
  {
    if |ids| > size {
      ChunksBounded(ids[size..], size);
    }
  }

  /** Chunking loses, repeats and reorders nothing. */
  lemma {:induction false} ChunksJoin(ids: seq<MatchId>, size: nat)
    requires size > 0
    ensures Joined(Chunks(ids, size)) == ids
  {
    if |ids| > size {
      ChunksJoin(ids[size..], size);
      assert ids == ids[..size] + ids[size..];
    } else if ids != [] {
      assert Joined([ids]) == ids + Joined([]);
    }
  }

  method Chunk(ids: seq<MatchId>, size: nat) returns (chunks: seq<seq<MatchId>>)
    requires size > 0
    ensures chunks == Chunks(ids, size)
    ensures Joined(chunks) == ids
  {
    chunks := [];
    if ids == [] {
      return;
    }
    var index := 0;
    while index < |ids|
      invariant 0 <= index
      invariant chunks + ChunksFrom(ids, index, size) == Chunks(ids, size)
    {
      var end := if index + size < |ids| then index + size else |ids|;
      ChunkStep(ids, index, size);
      ConcatAssociative(chunks, [ids[index..end]], ChunksFrom(ids, index + size, size));
      chunks := chunks + [ids[index..end]];
      index := index + size;
    }
    assert chunks + [] == chunks;
    ChunksJoin(ids, size);
  }

  ghost function ChunksFrom(ids: seq<MatchId>, index: nat, size: nat): seq<seq<MatchId>>
    requires size > 0
  {
    if index < |ids| then Chunks(ids[index..], size) else []
  }

  lemma ChunkStep(ids: seq<MatchId>, index: nat, size: nat)
    requires size > 0 && index < |ids|
    ensures var end := if index + size < |ids| then index + size else |ids|;
      ChunksFrom(ids, index, size) == [ids[index..end]] + ChunksFrom(ids, index + size, size)
  {
    var rest := ids[index..];
    if |rest| <= size {
      assert ids[index..|ids|] == rest;
    } else {
      assert rest[..size] == ids[index..index + size] && rest[size..] == ids[index + size..];
    }
  }

  /** The counters shared by both fetches, and everything they report and request. */
  class Progress {
    var processed: nat
    const queued: nat
    var reports: seq<(nat, nat)>
    var requested: seq<MatchId>

    constructor (queued: nat)
      ensures this.queued == queued && processed == 0 && reports == [(0, queued)] && requested == []
    {
      this.queued := queued;
      processed, reports, requested := 0, [(0, queued)], [];
    }
  }

  function FailedIds(ids: seq<MatchId>, loads: MatchId -> bool): (r: seq<MatchId>) {
    if ids == [] then []
    else if loads(ids[0]) then FailedIds(ids[1..], loads)
    else [ids[0]] + FailedIds(ids[1..], loads)
  }

  lemma {:induction false} FailedMembers(ids: seq<MatchId>, loads: MatchId -> bool, id: MatchId)
    ensures id in FailedIds(ids, loads) <==> id in ids && !loads(id)
  {
    if ids == [] {
    } else {
      FailedMembers(ids[1..], loads, id);
    }
  }

  lemma {:induction false} FailedConcat(a: seq<MatchId>, b: seq<MatchId>, loads: MatchId -> bool)
    ensures FailedIds(a + b, loads) == FailedIds(a, loads) + FailedIds(b, loads)
  {
    if a == [] {
      assert a + b == b;
    } else {
      FailedConcat(a[1..], b, loads);
      assert (a + b)[1..] == a[1..] + b;
      ConcatAssociative([a[0]], FailedIds(a[1..], loads), FailedIds(b, loads));
    }
  }

  function LoadedIds(ids: seq<MatchId>, loads: MatchId -> bool): (r: set<MatchId>) {
    set id | id in ids && loads(id)
  }

  /** loads says which detail requests succeed. */
  method FetchMatchDetailsWithProgress(ids: seq<MatchId>, batchSize: nat, loads: MatchId -> bool, progress: Progress)
    returns (details: set<MatchId>, failed: seq<MatchId>)
    requires batchSize > 0
    requires progress.processed + |ids| <= progress.queued
    requires forall r :: r in progress.reports ==> r.0 <= r.1 == progress.queued
    modifies progress
    ensures details == LoadedIds(ids, loads) && failed == FailedIds(ids, loads)
    ensures progress.processed == old(progress.processed) + |ids|
    ensures progress.requested == old(progress.requested) + ids
    ensures forall r :: r in progress.reports ==> r.0 <= r.1 == progress.queued
  {
    details, failed := {}, [];
    if ids == [] {
      return;
    }
    var chunks := Chunk(ids, batchSize);
    var i := 0;
    ghost var done: seq<MatchId> := [];
    while i < |chunks|
      invariant i <= |chunks|
      invariant done + Joined(chunks[i..]) == ids
      invariant details == LoadedIds(done, loads) && failed == FailedIds(done, loads)
      invariant progress.processed == old(progress.processed) + |done|
      invariant progress.requested == old(progress.requested) + done
      invariant forall r :: r in progress.reports ==> r.0 <= r.1 == progress.queued
    {
      var chunk := chunks[i];
      assert chunks[i..][1..] == chunks[i + 1..];
      ConcatAssociative(done, chunk, Joined(chunks[i + 1..]));
      ConcatAssociative(old(progress.requested), done, chunk);
      FailedConcat(done, chunk, loads);
      progress.requested := progress.requested + chunk;
      details, failed := SettleChunk(chunk, loads, details, failed);
      progress.processed := progress.processed + |chunk|;
      progress.reports := progress.reports + [(progress.processed, progress.queued)];
      done := done + chunk;
      i := i + 1;
    }
    assert done == ids;
  }

  /** Sorting the outcomes of one chunk into details and failures. */
  method SettleChunk(chunk: seq<MatchId>, loads: MatchId -> bool, details0: set<MatchId>, failed0: seq<MatchId>)
    returns (details: set<MatchId>, failed: seq<MatchId>)
    ensures details == details0 + LoadedIds(chunk, loads) && failed == failed0 + FailedIds(chunk, loads)
  {
    details, failed := details0, failed0;
    var j := 0;
    while j < |chunk|
      invariant j <= |chunk|
      invariant details + LoadedIds(chunk[j..], loads) == details0 + LoadedIds(chunk, loads)
      invariant failed + FailedIds(chunk[j..], loads) == failed0 + FailedIds(chunk, loads)
    {
      var id := chunk[j];
      assert chunk[j..] == [id] + chunk[j + 1..];
      assert LoadedIds(chunk[j..], loads) == (if loads(id) then {id} else {}) + LoadedIds(chunk[j + 1..], loads);
      if loads(id) {
        details := details + {id};
      } else {
        ConcatAssociative(failed, [id], FailedIds(chunk[j + 1..], loads));
        failed := failed + [id];
      }
      j := j + 1;
    }
  }

  // ---- the whole sync ----

  datatype Outcome =
    | Thrown
    | Synced(rows: set<MatchId>, cursor: Cursor, failedCount: nat)

  function ResultsOf(plan: seq<PageRequest>, respond: PageRequest -> seq<MatchId>): (r: map<nat, seq<MatchId>>) {
    if plan == [] then map[]
    else
      var n := |plan| - 1;
      ResultsOf(plan[..n], respond)[plan[n].start := respond(plan[n])]
  }

  /** Answer of a sync whose pages, known ids and loaded details are given. */
  function OutcomeOf(c: Cursor, plan: seq<PageRequest>, results: map<nat, seq<MatchId>>, syncType: SyncType,
                     known: set<MatchId>, loads: MatchId -> bool): (o: Outcome)
  {
    var requested := RequestedIds(plan, results, syncType, known);
    var loaded := LoadedIds(requested, loads);
    if !Usable(results, syncType, loaded) then Thrown
    else Synced(NewRows(plan, results, known, loaded), Advance(c, plan, results, known + loaded),
                |FailedIds(requested, loads)|)
  }

  function KnownIds(ids: seq<MatchId>, stored: set<MatchId>): (r: set<MatchId>) {
    set id | id in ids && id in stored
  }

  method SyncMatchHistory(c: Cursor, sizes: PageSizes, syncType: SyncType, batchSize: nat,
                          respond: PageRequest -> seq<MatchId>, stored: set<MatchId>, loads: MatchId -> bool)
    returns (o: Outcome, progress: Progress)
    requires sizes.Valid() && batchSize > 0
    ensures var plan := Plan(c, sizes);
      var results := ResultsOf(plan, respond);
      var known := KnownIds(AllIds(plan, results), stored);
      var requested := RequestedIds(plan, results, syncType, known);
      && o == OutcomeOf(c, plan, results, syncType, known, loads)
      && progress.requested == requested && Distinct(requested)
      && progress.processed == progress.queued == |requested|
      && (forall r :: r in progress.reports ==> r.0 <= r.1 == progress.queued)
      && (forall id :: id in AllIds(plan, results) ==> id in known || id in requested)
  {
    var plan := BuildMatchHistoryPageRequests(c, sizes);
    var results := ReadPages(plan, respond);
    var known := KnownIds(AllIds(plan, results), stored);
    var priority := PriorityIds(results, syncType);
    var background := BackgroundIds(plan, results, syncType, known);
    RequestsAreDistinct(plan, results, syncType, known);
    var details, failedCount;
    details, failedCount, progress := FetchBoth(priority, background, batchSize, loads);
    if !Usable(results, syncType, details) {
      o := Thrown;
      return;
    }
    var cursor := AdvanceMatchHistoryCursor(c, plan, results, known + details);
    o := Synced(NewRows(plan, results, known, details), cursor, failedCount);
  }

  method ReadPages(plan: seq<PageRequest>, respond: PageRequest -> seq<MatchId>)
    returns (results: map<nat, seq<MatchId>>)
    ensures results == ResultsOf(plan, respond)
  {
    results := map[];
    var i := 0;
    while i < |plan|
      invariant i <= |plan| && results == ResultsOf(plan[..i], respond)
    {
      results := results[plan[i].start := respond(plan[i])];
      assert plan[..i + 1][..i] == plan[..i];
      i := i + 1;
    }
    assert plan[..|plan|] == plan;
  }

  /** The priority fetch and then the background fetch, on one set of counters. */
  method FetchBoth(priority: seq<MatchId>, background: seq<MatchId>, batchSize: nat, loads: MatchId -> bool)
    returns (details: set<MatchId>, failedCount: nat, progress: Progress)
    requires batchSize > 0
    ensures details == LoadedIds(priority + background, loads)
    ensures failedCount == |FailedIds(priority + background, loads)|
    ensures progress.requested == priority + background
    ensures progress.processed == progress.queued == |priority + background|
    ensures forall r :: r in progress.reports ==> r.0 <= r.1 == progress.queued
  {
    progress := new Progress(|priority| + |background|);
    var details1, failed1 := FetchMatchDetailsWithProgress(priority, batchSize, loads, progress);
    var details2, failed2 := FetchMatchDetailsWithProgress(background, batchSize, loads, progress);
    FailedConcat(priority, background, loads);
    details, failedCount := details1 + details2, |failed1| + |failed2|;
    assert details == LoadedIds(priority + background, loads);
  }

  /** No match is requested twice, and every page id is known or requested. */
  lemma RequestsAreDistinct(plan: seq<PageRequest>, results: map<nat, seq<MatchId>>, syncType: SyncType,
                            known: set<MatchId>)
    ensures Distinct(RequestedIds(plan, results, syncType, known))
    ensures forall id :: id in AllIds(plan, results) ==>
      id in known || id in RequestedIds(plan, results, syncType, known)
  {
    var priority, background := PriorityIds(results, syncType), BackgroundIds(plan, results, syncType, known);
    forall i, j | 0 <= i < |priority| && 0 <= j < |background| ensures priority[i] != background[j] {
      assert priority[i] in Elements(priority) && background[j] in background;
    }
    forall id | id in AllIds(plan, results) ensures id in known || id in priority + background {
      assert id in background || id in Elements(priority) + known;
    }
  }

  /** Every id of a page ends up known, fetched or failed. */
  lemma PageIdsAreAccountedFor(plan: seq<PageRequest>, results: map<nat, seq<MatchId>>, syncType: SyncType,
                               known: set<MatchId>, loads: MatchId -> bool, r: PageRequest, id: MatchId)
    requires r in plan && id in PageOf(results, r.start)
    ensures var requested := RequestedIds(plan, results, syncType, known);
      id in known || id in LoadedIds(requested, loads) || id in FailedIds(requested, loads)
  {
    FlatContains(plan, results, r, id);
    assert id in Elements(Flat(plan, results));
    assert id in AllIds(plan, results);
    RequestsAreDistinct(plan, results, syncType, known);
    FailedMembers(RequestedIds(plan, results, syncType, known), loads, id);
  }

  lemma {:induction false} FlatContains(plan: seq<PageRequest>, results: map<nat, seq<MatchId>>, r: PageRequest,
                                        id: MatchId)
    requires r in plan && id in PageOf(results, r.start)
    ensures id in Flat(plan, results)
  {
    if r != plan[0] {
      FlatContains(plan[1..], results, r, id);
    }
  }

  /** Once the new rows are inserted, every resolved id of a page is stored. */
  lemma ResolvedAreStored(plan: seq<PageRequest>, results: map<nat, seq<MatchId>>, known: set<MatchId>,
                          loaded: set<MatchId>, stored: set<MatchId>)
    requires known <= stored && NewRows(plan, results, known, loaded) <= stored
    ensures forall r, id :: r in plan && id in PageOf(results, r.start) && id in known + loaded ==> id in stored
  {
    forall r, id | r in plan && id in PageOf(results, r.start) && id in known + loaded ensures id in stored {
      FlatContains(plan, results, r, id);
      assert id in Elements(Flat(plan, results));
      assert id in AllIds(plan, results);
      if id !in known {
        assert id in NewRows(plan, results, known, loaded);
      }
    }
  }
}
