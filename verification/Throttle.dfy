/** The fixed-window counter in front of public endpoints. */
module Throttle {
  import opened Prelude

  datatype Entry = Entry(count: nat, resetAt: int)

  datatype Limits = Limits(limit: nat, windowSeconds: nat) {
    function WindowMs(): (r: nat) {
      windowSeconds * 1000
    }
  }

  datatype Decision = Admitted | Limited(retryAfterSeconds: int)

  /** The entry a request is counted in: the running window, or a new one once it is over. */
  function EntryFor(existing: Option<Entry>, limits: Limits, now: int): (r: Entry) {
    if existing.None? || existing.value.resetAt <= now then Entry(0, now + limits.WindowMs()) else existing.value
  }

  /** Math.max(1, Math.ceil(ms / 1000)). */
  function RetrySeconds(ms: int): (r: int)
    ensures r >= 1 && r * 1000 >= ms
    ensures r == 1 || (r - 1) * 1000 < ms
  {
    var up := (ms + 999) / 1000;
    if up < 1 then 1 else up
  }

  /** One request against one key. */
  function Decide(existing: Option<Entry>, limits: Limits, now: int): (r: (Option<Entry>, Decision)) {
    var e := EntryFor(existing, limits, now);
    if e.count >= limits.limit then (existing, Limited(RetrySeconds(e.resetAt - now)))
    else (Some(Entry(e.count + 1, e.resetAt)), Admitted)
  }

  function Lookup(store: map<string, Entry>, key: string): (r: Option<Entry>) {
    if key in store then Some(store[key]) else None
  }

  function Stored(store: map<string, Entry>, key: string, e: Option<Entry>): (r: map<string, Entry>) {
    if e.Some? then store[key := e.value] else store
  }

  class PublicThrottle {
    var store: map<string, Entry>

    constructor ()
      ensures store == map[]
    {
      store := map[];
    }

    /** limits is absent on handlers without throttle metadata. */
    method CanActivate(limits: Option<Limits>, key: string, now: int) returns (d: Decision)
      modifies this
      ensures limits.None? ==> d == Admitted && store == old(store)
      ensures limits.Some? ==>
        var (e, decision) := Decide(Lookup(old(store), key), limits.value, now);
        d == decision && store == Stored(old(store), key, e)
    {
      if limits.None? {
        return Admitted;
      }
      var existing := Lookup(store, key);
      var windowMs := limits.value.WindowMs();
      var entry := if existing.None? || existing.value.resetAt <= now then Entry(0, now + windowMs) else existing.value;
      if entry.count >= limits.value.limit {
        return Limited(RetrySeconds(entry.resetAt - now));
      }
      entry := entry.(count := entry.count + 1);
      store := store[key := entry];
      return Admitted;
    }
  }

  // ---- traces ----

  datatype Request = Request(key: string, now: int)

  /** The store after a trace; every key has its own fixed limits. */
  ghost function StoreAfter(trace: seq<Request>, limitsOf: string -> Limits): map<string, Entry> {
    if trace == [] then map[]
    else
      var n := |trace| - 1;
      var before := StoreAfter(trace[..n], limitsOf);
      Stored(before, trace[n].key, Decide(Lookup(before, trace[n].key), limitsOf(trace[n].key), trace[n].now).0)
  }

  ghost function DecisionAt(trace: seq<Request>, limitsOf: string -> Limits, i: nat): Decision
    requires i < |trace|
  {
    Decide(Lookup(StoreAfter(trace[..i], limitsOf), trace[i].key), limitsOf(trace[i].key), trace[i].now).1
  }

  /** The times at which a key was admitted. */
  ghost function Admissions(trace: seq<Request>, limitsOf: string -> Limits, key: string): seq<int> {
    if trace == [] then []
    else
      var n := |trace| - 1;
      Admissions(trace[..n], limitsOf, key)
      + if trace[n].key == key && DecisionAt(trace, limitsOf, n) == Admitted then [trace[n].now] else []
  }

  ghost predicate ClockRuns(trace: seq<Request>) {
    forall i, j :: 0 <= i < j < |trace| ==> trace[i].now <= trace[j].now
  }

  /** Admissions in [low, high). */
  function CountIn(times: seq<int>, low: int, high: int): (r: nat) {
    if times == [] then 0 else (if low <= times[0] < high then 1 else 0) + CountIn(times[1..], low, high)
  }

  /** Admissions from low on. */
  function CountFrom(times: seq<int>, low: int): (r: nat) {
    if times == [] then 0 else (if low <= times[0] then 1 else 0) + CountFrom(times[1..], low)
  }

  lemma {:induction false} CountAppend(times: seq<int>, t: int, low: int, high: int)
    ensures CountIn(times + [t], low, high) == CountIn(times, low, high) + if low <= t < high then 1 else 0
    ensures CountFrom(times + [t], low) == CountFrom(times, low) + if low <= t then 1 else 0
  {
    if times == [] {
    } else {
      CountAppend(times[1..], t, low, high);
      assert (times + [t])[1..] == times[1..] + [t];
    }
  }

  lemma {:induction false} CountFromBounds(times: seq<int>, low: int, high: int, later: int)
    ensures CountIn(times, low, high) <= CountFrom(times, low)
    ensures low <= later ==> CountFrom(times, later) <= CountFrom(times, low)
    ensures (forall t :: t in times ==> t < high) ==> CountIn(times, low, high) == CountFrom(times, low)
    ensures (forall t :: t in times ==> t < low) ==> CountFrom(times, low) == 0
  {
    if times == [] {
    } else {
      CountFromBounds(times[1..], low, high, later);
      assert times[0] in times;
      assert forall t :: t in times[1..] ==> t in times;
    }
  }

  ghost predicate WindowBound(times: seq<int>, low: int, window: nat, bound: nat) {
    CountIn(times, low, low + window) <= bound
  }

  /** What the entry of a key knows about its admissions so far: their exact number in its window, a bound
      from one window earlier on, and that no stretch of one window length has seen more than twice the limit. */
  ghost predicate Tracks(e: Option<Entry>, times: seq<int>, limits: Limits, clock: int) {
    var w := limits.WindowMs();
    && (e.None? ==> times == [])
    && (e.Some? ==>
          && e.value.resetAt - w <= clock
          && (forall t :: t in times ==> t < e.value.resetAt)
          && CountFrom(times, e.value.resetAt - w) == e.value.count <= limits.limit
          && forall low :: low >= e.value.resetAt - 2 * w ==> CountFrom(times, low) <= limits.limit + e.value.count)
    && (forall low :: WindowBound(times, low, w, 2 * limits.limit))
  }

  lemma AdmissionBound(e: Option<Entry>, times: seq<int>, limits: Limits, clock: int, now: int, low: int)
    requires limits.windowSeconds > 0 && Tracks(e, times, limits, clock)
    requires clock <= now && Decide(e, limits, now).1 == Admitted
    ensures low > now - limits.WindowMs() ==> CountFrom(times, low) < 2 * limits.limit
    ensures e.Some? && e.value.resetAt > now && low >= e.value.resetAt - 2 * limits.WindowMs() ==>
      CountFrom(times, low) <= limits.limit + e.value.count
    ensures !(e.Some? && e.value.resetAt > now) && low >= now - limits.WindowMs() ==>
      CountFrom(times, low) <= limits.limit
    ensures !(e.Some? && e.value.resetAt > now) ==> CountFrom(times, now) == 0
  {
    var w := limits.WindowMs();
    if e.Some? {
      CountFromBounds(times, e.value.resetAt - w, now, low);
      CountFromBounds(times, now, now, now);
    }
  }

  /** What one admission adds, from any moment on. */
  lemma AdmissionCounts(e: Option<Entry>, times: seq<int>, limits: Limits, clock: int, now: int, low: int)
    requires limits.windowSeconds > 0 && Tracks(e, times, limits, clock) && clock <= now
    requires Decide(e, limits, now).1 == Admitted
    ensures var e' := Decide(e, limits, now).0.value;
      && WindowBound(times + [now], low, limits.WindowMs(), 2 * limits.limit)
      && (low >= e'.resetAt - 2 * limits.WindowMs() ==> CountFrom(times + [now], low) <= limits.limit + e'.count)
  {
    var w := limits.WindowMs();
    assert WindowBound(times, low, w, 2 * limits.limit);
    AdmissionBound(e, times, limits, clock, now, low);
    CountAppend(times, now, low, low + w);
    CountFromBounds(times, low, low + w, low);
  }

  lemma DecideTracks(e: Option<Entry>, times: seq<int>, limits: Limits, clock: int, now: int)
    requires limits.windowSeconds > 0 && Tracks(e, times, limits, clock) && clock <= now
    ensures var (e', d) := Decide(e, limits, now);
      Tracks(e', if d == Admitted then times + [now] else times, limits, now)
  {
    var (e', d) := Decide(e, limits, now);
    if d == Admitted {
      forall low: int
        ensures WindowBound(times + [now], low, limits.WindowMs(), 2 * limits.limit)
        ensures low >= e'.value.resetAt - 2 * limits.WindowMs() ==>
          CountFrom(times + [now], low) <= limits.limit + e'.value.count
      {
        AdmissionCounts(e, times, limits, clock, now, low);
      }
      AdmissionBound(e, times, limits, clock, now, now);
      CountAppend(times, now, e'.value.resetAt - limits.WindowMs(), 0);
    }
  }

  /** A request changes only the entry and the admissions of its own key. */
  lemma TraceStep(trace: seq<Request>, limitsOf: string -> Limits, key: string)
    requires trace != []
    ensures var n := |trace| - 1;
      var existing := Lookup(StoreAfter(trace[..n], limitsOf), key);
      var (e, d) := Decide(existing, limitsOf(key), trace[n].now);
      && Lookup(StoreAfter(trace, limitsOf), key) == (if trace[n].key == key then e else existing)
      && Admissions(trace, limitsOf, key) == Admissions(trace[..n], limitsOf, key)
           + (if trace[n].key == key && d == Admitted then [trace[n].now] else [])
  {
  }

  lemma {:induction false} TraceTracks(trace: seq<Request>, limitsOf: string -> Limits, key: string, clock: int)
    requires limitsOf(key).windowSeconds > 0 && ClockRuns(trace) && (trace != [] ==> trace[|trace| - 1].now <= clock)
    ensures Tracks(Lookup(StoreAfter(trace, limitsOf), key), Admissions(trace, limitsOf, key), limitsOf(key), clock)
  {
    if trace == [] {
      NothingTracked(limitsOf(key), clock);
    } else {
      var n := |trace| - 1;
      var e, times := Lookup(StoreAfter(trace[..n], limitsOf), key), Admissions(trace[..n], limitsOf, key);
      TraceTracks(trace[..n], limitsOf, key, trace[n].now);
      TraceStep(trace, limitsOf, key);
      if trace[n].key == key {
        DecideTracks(e, times, limitsOf(key), trace[n].now, trace[n].now);
      }
      assert times + [] == times;
      TracksLater(Lookup(StoreAfter(trace, limitsOf), key), Admissions(trace, limitsOf, key), limitsOf(key),
                  trace[n].now, clock);
    }
  }

  lemma NothingTracked(limits: Limits, clock: int)
    ensures Tracks(None, [], limits, clock)
  {
  }

  lemma TracksLater(e: Option<Entry>, times: seq<int>, limits: Limits, clock: int, later: int)
    requires Tracks(e, times, limits, clock) && clock <= later
    ensures Tracks(e, times, limits, later)
  {
  }

  /** A refusal happens at the limit of the running window, which the reported wait outlasts. */
  lemma RefusalMeaning(e: Option<Entry>, times: seq<int>, limits: Limits, now: int, later: int)
    requires limits.windowSeconds > 0 && Tracks(e, times, limits, now) && Decide(e, limits, now).1.Limited?
    ensures var window, wait := EntryFor(e, limits, now), 1000 * Decide(e, limits, now).1.retryAfterSeconds;
      && CountIn(times, window.resetAt - limits.WindowMs(), window.resetAt) == limits.limit
      && now < window.resetAt <= now + wait
      && (limits.limit > 0 && later >= now + wait ==> Decide(e, limits, later).1 == Admitted)
  {
    var window := EntryFor(e, limits, now);
    assert WindowBound(times, now, limits.WindowMs(), 2 * limits.limit);
    if e.Some? {
      CountFromBounds(times, window.resetAt - limits.WindowMs(), window.resetAt, 0);
    }
  }

  lemma AdmissionsPerWindow(trace: seq<Request>, limitsOf: string -> Limits, key: string, low: int, w: nat)
    requires limitsOf(key).windowSeconds > 0 && ClockRuns(trace) && w == limitsOf(key).WindowMs()
    ensures var times, e := Admissions(trace, limitsOf, key), Lookup(StoreAfter(trace, limitsOf), key);
      && CountIn(times, low, low + w) <= 2 * limitsOf(key).limit
      && (e.Some? ==> CountIn(times, e.value.resetAt - w, e.value.resetAt) == e.value.count <= limitsOf(key).limit)
  {
    var times, e := Admissions(trace, limitsOf, key), Lookup(StoreAfter(trace, limitsOf), key);
    TraceTracks(trace, limitsOf, key, if trace == [] then 0 else trace[|trace| - 1].now);
    assert WindowBound(times, low, w, 2 * limitsOf(key).limit);
    if e.Some? {
      CountFromBounds(times, e.value.resetAt - w, e.value.resetAt, 0);
    }
  }

  /** In every trace a key is admitted at most limit times in its running window, and at most twice that
      in any half-open interval of one window length, in milliseconds. */
  lemma AtMostTwiceTheLimit(trace: seq<Request>, limitsOf: string -> Limits, key: string, low: int)
    requires limitsOf(key).windowSeconds > 0 && ClockRuns(trace)
    ensures var times, w := Admissions(trace, limitsOf, key), 1000 * limitsOf(key).windowSeconds;
      var e := Lookup(StoreAfter(trace, limitsOf), key);
      && CountIn(times, low, low + w) <= 2 * limitsOf(key).limit
      && (e.Some? ==> CountIn(times, e.value.resetAt - w, e.value.resetAt) == e.value.count <= limitsOf(key).limit)
  {
    AdmissionsPerWindow(trace, limitsOf, key, low, 1000 * limitsOf(key).windowSeconds);
  }

  /** A request is refused only when exactly limit requests of its key were admitted in the window it
      falls into, and after the reported wait that window is over and the key is admitted again. */
  lemma RefusedOnlyAtTheLimit(trace: seq<Request>, limitsOf: string -> Limits, i: nat, later: int)
    requires i < |trace| && DecisionAt(trace, limitsOf, i).Limited?
    requires limitsOf(trace[i].key).windowSeconds > 0 && ClockRuns(trace)
    ensures var key, now := trace[i].key, trace[i].now;
      var limits := limitsOf(key);
      var e := EntryFor(Lookup(StoreAfter(trace[..i], limitsOf), key), limits, now);
      && CountIn(Admissions(trace[..i], limitsOf, key), e.resetAt - 1000 * limits.windowSeconds, e.resetAt)
           == limits.limit
      && now < e.resetAt <= now + 1000 * DecisionAt(trace, limitsOf, i).retryAfterSeconds
      && (limits.limit > 0 && later >= now + 1000 * DecisionAt(trace, limitsOf, i).retryAfterSeconds ==>
            Decide(Lookup(StoreAfter(trace[..i], limitsOf), key), limits, later).1 == Admitted)
  {
    var key, now := trace[i].key, trace[i].now;
    TraceTracks(trace[..i], limitsOf, key, now);
    RefusalMeaning(Lookup(StoreAfter(trace[..i], limitsOf), key), Admissions(trace[..i], limitsOf, key),
                   limitsOf(key), now, later);
  }
}
