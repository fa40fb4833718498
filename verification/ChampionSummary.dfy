/** Aggregating a champion history into buckets and choosing the top three. */
module ChampionSummary {
  import opened Prelude

  datatype Row = Row(
    championId: Option<int>, championKey: Option<string>, championName: Option<string>,
    kills: int, deaths: int, assists: int, didWin: Option<bool>, playedAtMs: Option<int>, seasonKey: Option<string>)

  datatype Bucket = Bucket(
    championId: Option<int>, championKey: string, games: nat, wins: nat, losses: nat,
    kills: int, deaths: int, assists: int, lastPlayedAtMs: int, latestSeasonGames: nat)

  /** The key of the bucket map: "id:<n>" or "key:<name>" in the code. */
  datatype BucketKey = ById(id: int) | ByName(name: string)

  const MINIMUM_MEANINGFUL_GAMES: nat := 3
  const TOP_CHAMPION_LIMIT: nat := 3

  /** Outside parameters: how numbers print, how names compare, and the season counted as latest. */
  datatype Locale = Locale(idText: int -> string, compareNames: (string, string) -> int, latestSeason: string)

  // ---- keys ----

  predicate IsAlphanumeric(c: char) {
    'a' <= c <= 'z' || 'A' <= c <= 'Z' || '0' <= c <= '9'
  }

  /** Removing everything but letters and digits; trimming first makes no difference. */
  function Alphanumeric(s: string): (r: string) {
    if s == [] then [] else if IsAlphanumeric(s[0]) then [s[0]] + Alphanumeric(s[1..]) else Alphanumeric(s[1..])
  }

  function ResolveChampionKey(row: Row, l: Locale): (r: Option<string>) {
    var raw := if row.championKey.Some? then row.championKey.value
               else if row.championName.Some? then row.championName.value else "";
    if Alphanumeric(raw) != "" then Some(Alphanumeric(raw))
    else if row.championId.Some? then Some(l.idText(row.championId.value))
    else None
  }

  function ResolveBucketKey(row: Row, l: Locale): (r: Option<BucketKey>) {
    if row.championId.Some? then Some(ById(row.championId.value))
    else
      var name := ResolveChampionKey(row, l);
      if name.Some? then Some(ByName(name.value)) else None
  }

  function BucketIdentity(b: Bucket): (r: BucketKey) {
    if b.championId.Some? then ById(b.championId.value) else ByName(b.championKey)
  }

  // ---- aggregation ----

  function NewBucket(row: Row, l: Locale): (b: Bucket) {
    var name := ResolveChampionKey(row, l);
    Bucket(row.championId, if name.Some? then name.value else "champion", 0, 0, 0, 0, 0, 0, 0, 0)
  }

  function WithRow(b: Bucket, row: Row, l: Locale): (r: Bucket) {
    var name := ResolveChampionKey(row, l);
    var played := if row.playedAtMs.Some? then row.playedAtMs.value else 0;
    Bucket(
      if b.championId.None? then row.championId else b.championId,
      if b.championKey == "" && name.Some? then name.value else b.championKey,
      b.games + 1,
      b.wins + (if row.didWin == Some(true) then 1 else 0),
      b.losses + (if row.didWin == Some(false) then 1 else 0),
      b.kills + row.kills, b.deaths + row.deaths, b.assists + row.assists,
      if played > b.lastPlayedAtMs then played else b.lastPlayedAtMs,
      b.latestSeasonGames + (if row.seasonKey == Some(l.latestSeason) then 1 else 0))
  }

  /** The insertion-ordered bucket map after one more row. */
  function AddRow(buckets: seq<Bucket>, key: BucketKey, row: Row, l: Locale): (r: seq<Bucket>) {
    if buckets == [] then [WithRow(NewBucket(row, l), row, l)]
    else if BucketIdentity(buckets[0]) == key then [WithRow(buckets[0], row, l)] + buckets[1..]
    else [buckets[0]] + AddRow(buckets[1..], key, row, l)
  }

  datatype Aggregate = Aggregate(buckets: seq<Bucket>, mappingFailures: nat)

  function AggregateOf(history: seq<Row>, l: Locale): (a: Aggregate) {
    if history == [] then Aggregate([], 0)
    else
      var n := |history| - 1;
      var before := AggregateOf(history[..n], l);
      var key := ResolveBucketKey(history[n], l);
      if key.None? then before.(mappingFailures := before.mappingFailures + 1)
      else before.(buckets := AddRow(before.buckets, key.value, history[n], l))
  }

  method AggregateHistory(history: seq<Row>, l: Locale) returns (a: Aggregate)
    ensures a == AggregateOf(history, l)
  {
    var buckets: seq<Bucket>, failures := [], 0;
    var i := 0;
    while i < |history|
      invariant i <= |history| && Aggregate(buckets, failures) == AggregateOf(history[..i], l)
    {
      assert history[..i + 1][..i] == history[..i];
      var key := ResolveBucketKey(history[i], l);
      if key.None? {
        failures := failures + 1;
      } else {
        buckets := AddRow(buckets, key.value, history[i], l);
      }
      i := i + 1;
    }
    assert history[..|history|] == history;
    a := Aggregate(buckets, failures);
  }

  ghost predicate DistinctBuckets(buckets: seq<Bucket>) {
    forall i, j :: 0 <= i < j < |buckets| ==> BucketIdentity(buckets[i]) != BucketIdentity(buckets[j])
  }

  /** Rows of the history that belong to a key. */
  function RowsFor(history: seq<Row>, key: BucketKey, l: Locale): (r: nat) {
    if history == [] then 0
    else
      var n := |history| - 1;
      RowsFor(history[..n], key, l) + if ResolveBucketKey(history[n], l) == Some(key) then 1 else 0
  }

  function TotalGames(buckets: seq<Bucket>): (r: nat) {
    if buckets == [] then 0 else buckets[0].games + TotalGames(buckets[1..])
  }

  /** Games a list of buckets holds for a key. */
  function GamesFor(buckets: seq<Bucket>, key: BucketKey): (r: nat) {
    if buckets == [] then 0
    else (if BucketIdentity(buckets[0]) == key then buckets[0].games else 0) + GamesFor(buckets[1..], key)
  }

  ghost predicate Proper(buckets: seq<Bucket>) {
    && DistinctBuckets(buckets)
    && forall b :: b in buckets ==> b.games > 0 && (b.championId.None? ==> b.championKey != "")
  }

  lemma RowKeepsIdentity(b: Bucket, row: Row, l: Locale)
    requires Some(BucketIdentity(b)) == ResolveBucketKey(row, l) && (b.championId.None? ==> b.championKey != "")
    ensures BucketIdentity(WithRow(b, row, l)) == BucketIdentity(b)
    ensures var c := WithRow(b, row, l); c.championId.None? ==> c.championKey != ""
  {
  }

  lemma NewBucketIdentity(row: Row, key: BucketKey, l: Locale)
    requires ResolveBucketKey(row, l) == Some(key)
    ensures var b := NewBucket(row, l); BucketIdentity(b) == key && (b.championId.None? ==> b.championKey != "")
  {
  }

  /** A row adds one game to the bucket of its key and touches no other. */
  lemma {:induction false} AddRowEffect(buckets: seq<Bucket>, key: BucketKey, row: Row, l: Locale)
    requires ResolveBucketKey(row, l) == Some(key) && Proper(buckets)
    ensures var r := AddRow(buckets, key, row, l);
      && Proper(r)
      && TotalGames(r) == TotalGames(buckets) + 1
      && (forall k :: GamesFor(r, k) == GamesFor(buckets, k) + if k == key then 1 else 0)
      && (forall b :: b in r ==> BucketIdentity(b) == key || b in buckets)
  {
    if buckets == [] {
      NewBucketIdentity(row, key, l);
      RowKeepsIdentity(NewBucket(row, l), row, l);
    } else if BucketIdentity(buckets[0]) == key {
      assert buckets[0] in buckets;
      RowKeepsIdentity(buckets[0], row, l);
      var r := AddRow(buckets, key, row, l);
      assert r[1..] == buckets[1..];
      forall b | b in r ensures b.games > 0 && (b.championId.None? ==> b.championKey != "") {
        assert b == r[0] || b in buckets;
      }
    } else {
      ProperTail(buckets);
      AddRowEffect(buckets[1..], key, row, l);
      HeadStaysProper(buckets, AddRow(buckets[1..], key, row, l), key);
    }
  }

  /** A bucket of another key stays in front of its changed tail. */
  lemma HeadStaysProper(buckets: seq<Bucket>, rest: seq<Bucket>, key: BucketKey)
    requires Proper(buckets) && buckets != [] && BucketIdentity(buckets[0]) != key && Proper(rest)
    requires forall b :: b in rest ==> BucketIdentity(b) == key || b in buckets[1..]
    ensures Proper([buckets[0]] + rest)
  {
    forall j | 0 <= j < |rest| ensures BucketIdentity(rest[j]) != BucketIdentity(buckets[0]) {
      assert rest[j] in rest;
      if rest[j] in buckets[1..] {
        var i :| 1 <= i < |buckets| && buckets[i] == rest[j];
      }
    }
    assert buckets[0] in buckets;
  }

  lemma ProperTail(buckets: seq<Bucket>)
    requires Proper(buckets) && buckets != []
    ensures Proper(buckets[1..])
  {
    assert forall b :: b in buckets[1..] ==> b in buckets;
  }

  /** Conservation: every mapped row is one game of exactly the bucket of its key, and the rest are
      mapping failures. */
  lemma {:induction false} AggregateConserves(history: seq<Row>, l: Locale)
    ensures var a := AggregateOf(history, l);
      && Proper(a.buckets)
      && TotalGames(a.buckets) + a.mappingFailures == |history|
      && (forall k :: GamesFor(a.buckets, k) == RowsFor(history, k, l))
  {
    if history == [] {
    } else {
      var n := |history| - 1;
      AggregateConserves(history[..n], l);
      var key := ResolveBucketKey(history[n], l);
      if key.Some? {
        AddRowEffect(AggregateOf(history[..n], l).buckets, key.value, history[n], l);
      }
    }
  }

  // ---- what a bucket holds ----

  /** The rows of a key, in history order. */
  function RowsOf(history: seq<Row>, key: BucketKey, l: Locale): (r: seq<Row>) {
    if history == [] then []
    else
      var n := |history| - 1;
      var rest := RowsOf(history[..n], key, l);
      if ResolveBucketKey(history[n], l) == Some(key) then rest + [history[n]] else rest
  }

  function Count(rows: seq<Row>, f: Row -> bool): (r: nat) {
    if rows == [] then 0 else Count(rows[..|rows| - 1], f) + if f(rows[|rows| - 1]) then 1 else 0
  }

  function Sum(rows: seq<Row>, f: Row -> int): (r: int) {
    if rows == [] then 0 else Sum(rows[..|rows| - 1], f) + f(rows[|rows| - 1])
  }

  ghost predicate LatestOf(rows: seq<Row>, t: int) {
    && t >= 0
    && (forall r :: r in rows && r.playedAtMs.Some? ==> r.playedAtMs.value <= t)
    && (t == 0 || exists r :: r in rows && r.playedAtMs == Some(t))
  }

  /** A bucket whose numbers are those of the given rows. */
  ghost predicate Holds(b: Bucket, rows: seq<Row>, l: Locale) {
    && b.games == |rows|
    && b.wins == Count(rows, (r: Row) => r.didWin == Some(true))
    && b.losses == Count(rows, (r: Row) => r.didWin == Some(false))
    && b.latestSeasonGames == Count(rows, (r: Row) => r.seasonKey == Some(l.latestSeason))
    && b.kills == Sum(rows, (r: Row) => r.kills)
    && b.deaths == Sum(rows, (r: Row) => r.deaths)
    && b.assists == Sum(rows, (r: Row) => r.assists)
    && LatestOf(rows, b.lastPlayedAtMs)
  }

  lemma WithRowHolds(b: Bucket, rows: seq<Row>, row: Row, l: Locale)
    requires Holds(b, rows, l)
    ensures Holds(WithRow(b, row, l), rows + [row], l)
  {
    var all := rows + [row];
    assert all[..|all| - 1] == rows && all[|all| - 1] == row;
    var t := WithRow(b, row, l).lastPlayedAtMs;
    if t != b.lastPlayedAtMs {
      assert row in all && row.playedAtMs == Some(t);
    } else if t != 0 {
      var r :| r in rows && r.playedAtMs == Some(t);
      assert r in all;
    }
  }

  /** Where the bucket of the added row comes from. */
  lemma {:induction false} AddedBucket(buckets: seq<Bucket>, key: BucketKey, row: Row, l: Locale, b: Bucket)
    requires ResolveBucketKey(row, l) == Some(key) && Proper(buckets)
    requires b in AddRow(buckets, key, row, l)
    ensures (b in buckets && BucketIdentity(b) != key)
      || (exists prior :: prior in buckets && BucketIdentity(prior) == key && b == WithRow(prior, row, l))
      || (b == WithRow(NewBucket(row, l), row, l) && forall c :: c in buckets ==> BucketIdentity(c) != key)
  {
    if buckets == [] {
    } else {
      assert buckets[0] in buckets;
      if BucketIdentity(buckets[0]) == key {
        if b in buckets[1..] {
          var i :| 1 <= i < |buckets| && buckets[i] == b;
        } else {
          assert b == WithRow(buckets[0], row, l);
        }
      } else if b != buckets[0] {
        ProperTail(buckets);
        AddedBucket(buckets[1..], key, row, l, b);
        assert forall c :: c in buckets[1..] ==> c in buckets;
      }
    }
  }

  lemma {:induction false} NoBucketNoRows(history: seq<Row>, key: BucketKey, l: Locale)
    requires RowsFor(history, key, l) == 0
    ensures RowsOf(history, key, l) == []
  {
    if history == [] {
    } else {
      NoBucketNoRows(history[..|history| - 1], key, l);
    }
  }

  lemma {:induction false} NoGames(buckets: seq<Bucket>, key: BucketKey)
    requires forall c :: c in buckets ==> BucketIdentity(c) != key
    ensures GamesFor(buckets, key) == 0
  {
    if buckets == [] {
    } else {
      assert buckets[0] in buckets;
      NoGames(buckets[1..], key);
    }
  }

  lemma StartsEmpty(row: Row, l: Locale)
    ensures Holds(NewBucket(row, l), [], l)
  {
  }

  /** Every bucket holds exactly the games, wins, losses, season games, kills, deaths, assists and last
      play of the rows of its key. */
  lemma {:induction false} BucketsHoldTheirRows(history: seq<Row>, l: Locale, b: Bucket)
    requires b in AggregateOf(history, l).buckets
    ensures Holds(b, RowsOf(history, BucketIdentity(b), l), l)
  {
    if history == [] {
    } else {
      var n := |history| - 1;
      var before, row := AggregateOf(history[..n], l).buckets, history[n];
      var key := ResolveBucketKey(row, l);
      AggregateConserves(history[..n], l);
      if key.None? || (b in before && BucketIdentity(b) != key.value) {
        BucketsHoldTheirRows(history[..n], l, b);
      } else {
        AddedBucket(before, key.value, row, l, b);
        if prior :| prior in before && BucketIdentity(prior) == key.value && b == WithRow(prior, row, l) {
          BucketsHoldTheirRows(history[..n], l, prior);
          RowKeepsIdentity(prior, row, l);
          WithRowHolds(prior, RowsOf(history[..n], key.value, l), row, l);
        } else {
          NoGames(before, key.value);
          NoBucketNoRows(history[..n], key.value, l);
          NewBucketIdentity(row, key.value, l);
          RowKeepsIdentity(NewBucket(row, l), row, l);
          StartsEmpty(row, l);
          WithRowHolds(NewBucket(row, l), [], row, l);
        }
      }
    }
  }

  // ---- ranking ----

  function WinRate(b: Bucket): (r: real) {
    if b.games > 0 then b.wins as real / b.games as real else 0.0
  }

  /** compareBuckets(x, y) <= 0: more games, more games of the latest season, higher win rate, played
      later, name. */
  predicate NotAfter(x: Bucket, y: Bucket, l: Locale) {
    if x.games != y.games then x.games > y.games
    else if x.latestSeasonGames != y.latestSeasonGames then x.latestSeasonGames > y.latestSeasonGames
    else if WinRate(x) != WinRate(y) then WinRate(x) > WinRate(y)
    else if x.lastPlayedAtMs != y.lastPlayedAtMs then x.lastPlayedAtMs > y.lastPlayedAtMs
    else l.compareNames(x.championKey, y.championKey) <= 0
  }

  function Insert(x: Bucket, ys: seq<Bucket>, l: Locale): (r: seq<Bucket>) {
    if ys == [] || NotAfter(x, ys[0], l) then [x] + ys else [ys[0]] + Insert(x, ys[1..], l)
  }

  function Ranked(xs: seq<Bucket>, l: Locale): (r: seq<Bucket>) {
    if xs == [] then [] else Insert(xs[0], Ranked(xs[1..], l), l)
  }

  ghost predicate ByGames(bs: seq<Bucket>) {
    forall i, j :: 0 <= i < j < |bs| ==> bs[i].games >= bs[j].games
  }

  lemma {:induction false} InsertPermutes(x: Bucket, ys: seq<Bucket>, l: Locale)
    ensures multiset(Insert(x, ys, l)) == multiset{x} + multiset(ys)
  {
    if ys == [] {
    } else {
      InsertPermutes(x, ys[1..], l);
      assert ys == [ys[0]] + ys[1..];
    }
  }

  lemma {:induction false} InsertMembers(x: Bucket, ys: seq<Bucket>, l: Locale)
    ensures forall b :: b in Insert(x, ys, l) <==> b == x || b in ys
  {
    if ys == [] || NotAfter(x, ys[0], l) {
    } else {
      InsertMembers(x, ys[1..], l);
    }
  }

  lemma {:induction false} InsertByGames(x: Bucket, ys: seq<Bucket>, l: Locale)
    requires ByGames(ys)
    ensures ByGames(Insert(x, ys, l))
  {
    if ys == [] || NotAfter(x, ys[0], l) {
    } else {
      InsertByGames(x, ys[1..], l);
      InsertMembers(x, ys[1..], l);
      var rest := Insert(x, ys[1..], l);
      forall j | 0 <= j < |rest| ensures ys[0].games >= rest[j].games {
        assert rest[j] in rest;
      }
    }
  }

  /** Ranking permutes the buckets into non-increasing games. */
  lemma {:induction false} RankedByGames(xs: seq<Bucket>, l: Locale)
    ensures var r := Ranked(xs, l); ByGames(r) && multiset(r) == multiset(xs)
  {
    if xs == [] {
    } else {
      RankedByGames(xs[1..], l);
      InsertByGames(xs[0], Ranked(xs[1..], l), l);
      InsertPermutes(xs[0], Ranked(xs[1..], l), l);
      assert xs == [xs[0]] + xs[1..];
    }
  }

  /** compareNames is a total preorder, as a collation is. */
  ghost predicate Collates(l: Locale) {
    && (forall a, b :: l.compareNames(a, b) <= 0 || l.compareNames(b, a) <= 0)
    && (forall a, b, c :: l.compareNames(a, b) <= 0 && l.compareNames(b, c) <= 0 ==> l.compareNames(a, c) <= 0)
  }

  lemma NotAfterTotal(x: Bucket, y: Bucket, l: Locale)
    requires Collates(l) && !NotAfter(x, y, l)
    ensures NotAfter(y, x, l)
  {
  }

  lemma NotAfterTransitive(x: Bucket, y: Bucket, z: Bucket, l: Locale)
    requires Collates(l) && NotAfter(x, y, l) && NotAfter(y, z, l)
    ensures NotAfter(x, z, l)
  {
    if x.games == y.games == z.games && x.latestSeasonGames == y.latestSeasonGames == z.latestSeasonGames {
      assert WinRate(x) == WinRate(y) || WinRate(x) > WinRate(y);
      assert WinRate(y) == WinRate(z) || WinRate(y) > WinRate(z);
    }
  }

  ghost predicate InOrder(bs: seq<Bucket>, l: Locale) {
    forall i, j :: 0 <= i < j < |bs| ==> NotAfter(bs[i], bs[j], l)
  }

  lemma {:induction false} InsertInOrder(x: Bucket, ys: seq<Bucket>, l: Locale)
    requires Collates(l) && InOrder(ys, l)
    ensures InOrder(Insert(x, ys, l), l)
    ensures forall b :: b in Insert(x, ys, l) <==> b == x || b in ys
  {
    if ys == [] {
    } else if NotAfter(x, ys[0], l) {
      forall j | 0 <= j < |ys| ensures NotAfter(x, ys[j], l) {
        if j > 0 {
          NotAfterTransitive(x, ys[0], ys[j], l);
        }
      }
    } else {
      NotAfterTotal(x, ys[0], l);
      InsertInOrder(x, ys[1..], l);
      var rest := Insert(x, ys[1..], l);
      forall j | 0 <= j < |rest| ensures NotAfter(ys[0], rest[j], l) {
        assert rest[j] in rest;
      }
    }
  }

  /** Ranking puts the buckets in comparator order: by games, latest-season games, win rate, last play and name. */
  lemma {:induction false} RankedInOrder(xs: seq<Bucket>, l: Locale)
    requires Collates(l)
    ensures InOrder(Ranked(xs, l), l)
    ensures forall b :: b in Ranked(xs, l) <==> b in xs
  {
    if xs == [] {
    } else {
      RankedInOrder(xs[1..], l);
      InsertInOrder(xs[0], Ranked(xs[1..], l), l);
    }
  }

  lemma {:induction false} PermutedProper(xs: seq<Bucket>, ys: seq<Bucket>)
    requires multiset(xs) == multiset(ys) && Proper(xs)
    ensures Proper(ys)
  {
    forall b ensures b in ys <==> b in xs {
      assert b in multiset(ys) <==> b in multiset(xs);
    }
    forall i, j | 0 <= i < j < |ys| ensures BucketIdentity(ys[i]) != BucketIdentity(ys[j]) {
      if ys[i] == ys[j] {
        TwoOccurrences(ys, i, j);
        OneOccurrence(xs, ys[i]);
        assert false;
      }
      assert ys[i] in ys && ys[j] in ys;
      assert ys[i] in xs && ys[j] in xs;
      var a :| 0 <= a < |xs| && xs[a] == ys[i];
      var b :| 0 <= b < |xs| && xs[b] == ys[j];
    }
  }

  lemma TwoOccurrences(ys: seq<Bucket>, i: nat, j: nat)
    requires i < j < |ys| && ys[i] == ys[j]
    ensures multiset(ys)[ys[i]] >= 2
  {
    var rest := ys[..i] + ys[i + 1..];
    assert ys == ys[..i] + [ys[i]] + ys[i + 1..];
    assert ys[i + 1..][j - i - 1] == ys[j];
    assert multiset(ys) == multiset(ys[..i]) + multiset{ys[i]} + multiset(ys[i + 1..]);
    assert ys[j] in multiset(ys[i + 1..]);
  }

  lemma {:induction false} OneOccurrence(xs: seq<Bucket>, b: Bucket)
    requires DistinctBuckets(xs)
    ensures multiset(xs)[b] <= 1
  {
    if xs == [] {
    } else {
      OneOccurrence(xs[1..], b);
      assert xs == [xs[0]] + xs[1..];
      if xs[0] == b {
        forall j | 0 <= j < |xs[1..]| ensures xs[1..][j] != b {
          assert xs[j + 1] == xs[1..][j];
        }
        assert b !in multiset(xs[1..]);
      }
    }
  }

  // ---- selection ----

  /** How many leading buckets have at least t games. */
  function Reaching(ranked: seq<Bucket>, t: nat): (r: nat)
    ensures r <= |ranked|
  {
    if ranked == [] || ranked[0].games < t then 0 else 1 + Reaching(ranked[1..], t)
  }

  lemma {:induction false} ReachingMeans(ranked: seq<Bucket>, t: nat)
    ensures forall i :: 0 <= i < Reaching(ranked, t) ==> ranked[i].games >= t
    ensures Reaching(ranked, t) < |ranked| ==> ranked[Reaching(ranked, t)].games < t
  {
    if ranked != [] && ranked[0].games >= t {
      ReachingMeans(ranked[1..], t);
      forall i | 0 < i < Reaching(ranked, t) ensures ranked[i].games >= t {
        assert ranked[i] == ranked[1..][i - 1];
      }
    }
  }

  function Additions(ranked: seq<Bucket>, t: nat, taken: set<BucketKey>): (r: seq<Bucket>) {
    if ranked == [] then []
    else if ranked[0].games >= t && BucketIdentity(ranked[0]) !in taken
    then [ranked[0]] + Additions(ranked[1..], t, taken)
    else Additions(ranked[1..], t, taken)
  }

  function Identities(bs: seq<Bucket>): (r: set<BucketKey>) {
    set b | b in bs :: BucketIdentity(b)
  }

  function Least(a: nat, b: nat): (r: nat) {
    if a < b then a else b
  }

  lemma {:induction false} NoneReaching(ranked: seq<Bucket>, t: nat, taken: set<BucketKey>)
    requires forall b :: b in ranked ==> b.games < t
    ensures Additions(ranked, t, taken) == []
  {
    if ranked == [] {
    } else {
      assert ranked[0] in ranked;
      NoneReaching(ranked[1..], t, taken);
    }
  }

  lemma TakenTail(ranked: seq<Bucket>, from: nat, taken: set<BucketKey>)
    requires ranked != [] && forall i :: 0 <= i < |ranked| ==> (BucketIdentity(ranked[i]) in taken <==> i < from)
    ensures forall i :: 0 <= i < |ranked[1..]| ==>
      (BucketIdentity(ranked[1..][i]) in taken <==> i < if from > 0 then from - 1 else 0)
  {
    forall i | 0 <= i < |ranked[1..]| ensures ranked[1..][i] == ranked[i + 1] {
    }
  }

  /** One more bucket of the ranking, taken already or not. */
  lemma AdditionsHead(ranked: seq<Bucket>, from: nat, t: nat, taken: set<BucketKey>)
    requires ranked != [] && ranked[0].games >= t && (BucketIdentity(ranked[0]) in taken <==> 0 < from)
    ensures Additions(ranked, t, taken) == (if from > 0 then [] else [ranked[0]]) + Additions(ranked[1..], t, taken)
  {
  }

  lemma SliceHead(ranked: seq<Bucket>, from: nat, c: nat)
    requires from <= c && 0 < c <= |ranked|
    ensures ranked[from..c]
         == (if from > 0 then [] else [ranked[0]]) + ranked[1..][if from > 0 then from - 1 else 0..c - 1]
  {
  }

  /** What a threshold adds to an already taken prefix is the next stretch of the ranking. */
  lemma {:induction false} AdditionsAreNext(ranked: seq<Bucket>, from: nat, t: nat, taken: set<BucketKey>)
    requires from <= Reaching(ranked, t) && ByGames(ranked)
    requires forall i :: 0 <= i < |ranked| ==> (BucketIdentity(ranked[i]) in taken <==> i < from)
    ensures Additions(ranked, t, taken) == ranked[from..Reaching(ranked, t)]
    decreases ranked
  {
    var c := Reaching(ranked, t);
    if c == 0 {
      ReachingMeans(ranked, t);
      forall b | b in ranked ensures b.games < t {
        var i :| 0 <= i < |ranked| && ranked[i] == b;
      }
      NoneReaching(ranked, t, taken);
    } else {
      TakenTail(ranked, from, taken);
      AdditionsAreNext(ranked[1..], if from > 0 then from - 1 else 0, t, taken);
      AdditionsHead(ranked, from, t, taken);
      SliceHead(ranked, from, c);
    }
  }

  datatype Selection = Selection(selected: seq<Bucket>, thresholdUsed: Option<nat>, fallbacks: seq<nat>)

  /** The plain top three. */
  function TopThree(ranked: seq<Bucket>): (r: seq<Bucket>) {
    ranked[..Least(TOP_CHAMPION_LIMIT, |ranked|)]
  }

  /** The fallback thresholds that contributed additions while slots were left. */
  function FallbacksUsed(ranked: seq<Bucket>): (r: seq<nat>) {
    (if Reaching(ranked, 3) < 3 && Reaching(ranked, 2) > Reaching(ranked, 3) then [2] else [])
    + (if Reaching(ranked, 2) < 3 && Reaching(ranked, 1) > Reaching(ranked, 2) then [1] else [])
  }

  /** One threshold pass: pushing additions until the limit. */
  method PushAdditions(ranked: seq<Bucket>, from: nat, threshold: nat, taken0: set<BucketKey>)
    returns (selected: seq<Bucket>, taken: set<BucketKey>, added: bool)
    requires ByGames(ranked) && DistinctBuckets(ranked)
    requires from <= Reaching(ranked, threshold) && from < TOP_CHAMPION_LIMIT
    requires taken0 == Identities(ranked[..from])
    ensures var upTo := Least(TOP_CHAMPION_LIMIT, Reaching(ranked, threshold));
      selected == ranked[..upTo] && taken == Identities(ranked[..upTo])
    ensures added <==> Reaching(ranked, threshold) > from
  {
    TakenPrefix(ranked, from);
    AdditionsAreNext(ranked, from, threshold, taken0);
    var additions := Additions(ranked, threshold, taken0);
    selected, taken := ranked[..from], taken0;
    var i := 0;
    while i < |additions|
      invariant i <= |additions| && from + i <= TOP_CHAMPION_LIMIT
      invariant selected == ranked[..from + i] && taken == Identities(selected)
    {
      if |selected| >= TOP_CHAMPION_LIMIT {
        break;
      }
      NextTaken(ranked, from + i);
      selected := selected + [additions[i]];
      taken := taken + {BucketIdentity(additions[i])};
      i := i + 1;
    }
    added := |additions| > 0;
  }

  lemma IdentitiesAppend(bs: seq<Bucket>, b: Bucket)
    ensures Identities(bs + [b]) == Identities(bs) + {BucketIdentity(b)}
  {
    assert b in bs + [b];
    assert forall c :: c in bs ==> c in bs + [b];
  }

  lemma NextTaken(ranked: seq<Bucket>, k: nat)
    requires k < |ranked|
    ensures ranked[..k + 1] == ranked[..k] + [ranked[k]]
    ensures Identities(ranked[..k + 1]) == Identities(ranked[..k]) + {BucketIdentity(ranked[k])}
  {
    assert ranked[..k + 1] == ranked[..k] + [ranked[k]];
    IdentitiesAppend(ranked[..k], ranked[k]);
  }

  lemma TakenPrefix(ranked: seq<Bucket>, from: nat)
    requires DistinctBuckets(ranked) && from <= |ranked|
    ensures forall i :: 0 <= i < |ranked| ==> (BucketIdentity(ranked[i]) in Identities(ranked[..from]) <==> i < from)
  {
    forall i | 0 <= i < |ranked|
      ensures BucketIdentity(ranked[i]) in Identities(ranked[..from]) <==> i < from
    {
      if i < from {
        assert ranked[..from][i] in ranked[..from];
      } else {
        forall b | b in ranked[..from] ensures BucketIdentity(b) != BucketIdentity(ranked[i]) {
          var k :| 0 <= k < from && ranked[k] == b;
        }
      }
    }
  }

  lemma ReachingGrows(ranked: seq<Bucket>, t: nat, u: nat)
    requires ByGames(ranked) && u <= t
    ensures Reaching(ranked, t) <= Reaching(ranked, u)
  {
    ReachingMeans(ranked, t);
    ReachingMeans(ranked, u);
  }

  lemma AllReachOne(ranked: seq<Bucket>)
    requires forall b :: b in ranked ==> b.games > 0
    ensures Reaching(ranked, 1) == |ranked|
  {
    ReachingMeans(ranked, 1);
    forall i | 0 <= i < |ranked| ensures ranked[i].games > 0 {
      assert ranked[i] in ranked;
    }
  }

  /** How far the first k thresholds, 3 down to 4 - k, reach. */
  ghost function ReachAfter(ranked: seq<Bucket>, k: nat): nat
    requires k <= 3
  {
    if k == 0 then 0 else Reaching(ranked, 4 - k)
  }

  /** The fallback thresholds among the first k that contributed. */
  ghost function FallbacksAfter(ranked: seq<Bucket>, k: nat): seq<nat>
    requires k <= 3
  {
    if k < 2 then [] else FallbacksAfter(ranked, k - 1)
                          + if ReachAfter(ranked, k) > ReachAfter(ranked, k - 1) then [4 - k] else []
  }

  ghost function ThresholdOf(ranked: seq<Bucket>, reached: nat): Option<nat>
    requires reached <= |ranked|
  {
    if reached == 0 then None else Some(Least(3, ranked[0].games))
  }

  lemma ReachGrows(ranked: seq<Bucket>, k: nat)
    requires ByGames(ranked) && k < 3
    ensures ReachAfter(ranked, k) <= ReachAfter(ranked, k + 1) <= |ranked|
  {
    ReachingGrows(ranked, 4 - k, 3 - k);
  }

  lemma FirstReached(ranked: seq<Bucket>, k: nat)
    requires k < 3 && ReachAfter(ranked, k) == 0 && ReachAfter(ranked, k + 1) > 0
    ensures Least(3, ranked[0].games) == 3 - k
  {
    ReachingMeans(ranked, 3 - k);
    ReachingMeans(ranked, 4 - k);
  }

  /** After the pass that fills the last slot, or all three passes, the fallbacks are the documented ones. */
  lemma FallbacksSettled(ranked: seq<Bucket>, k: nat)
    requires ByGames(ranked) && 1 <= k <= 3 && ReachAfter(ranked, k - 1) < 3
    requires k == 3 || ReachAfter(ranked, k) >= 3
    ensures FallbacksAfter(ranked, k) == FallbacksUsed(ranked)
  {
    ReachGrows(ranked, 0);
    ReachGrows(ranked, 1);
    ReachGrows(ranked, 2);
    assert FallbacksAfter(ranked, 1) == [];
    if k >= 2 {
      assert FallbacksAfter(ranked, 2) == [] + if Reaching(ranked, 2) > Reaching(ranked, 3) then [2] else [];
    }
    if k == 3 {
      assert FallbacksAfter(ranked, 3) == FallbacksAfter(ranked, 2)
        + if Reaching(ranked, 1) > Reaching(ranked, 2) then [1] else [];
    }
  }

  /** The three-threshold loop returns exactly the first three buckets of the ranking, and the first
      threshold used is the top bucket's games capped at three. */
  method SelectTopChampions(ranked: seq<Bucket>) returns (s: Selection)
    requires ByGames(ranked) && Proper(ranked)
    ensures s.selected == TopThree(ranked)
    ensures s.thresholdUsed == if ranked == [] then None else Some(Least(3, ranked[0].games))
    ensures s.fallbacks == FallbacksUsed(ranked)
  {
    AllReachOne(ranked);
    s := PassThresholds(ranked);
  }

  /** The k-th threshold pass. */
  method OnePass(ranked: seq<Bucket>, k: nat, selected: seq<Bucket>, taken: set<BucketKey>, used: Option<nat>,
                 fallbacks: seq<nat>)
    returns (selected': seq<Bucket>, taken': set<BucketKey>, used': Option<nat>, fallbacks': seq<nat>)
    requires ByGames(ranked) && DistinctBuckets(ranked) && k < 3 && ReachAfter(ranked, k) < 3
    requires selected == ranked[..ReachAfter(ranked, k)] && taken == Identities(selected)
    requires used == ThresholdOf(ranked, ReachAfter(ranked, k)) && fallbacks == FallbacksAfter(ranked, k)
    ensures selected' == ranked[..Least(TOP_CHAMPION_LIMIT,
                                        ReachAfter(ranked, k + 1))] && taken' == Identities(selected')
    ensures used' == ThresholdOf(ranked, ReachAfter(ranked, k + 1)) && fallbacks' == FallbacksAfter(ranked, k + 1)
  {
    var thresholds: seq<nat> := [MINIMUM_MEANINGFUL_GAMES, 2, 1];
    var threshold := thresholds[k];
    ReachGrows(ranked, k);
    var added;
    selected', taken', added := PushAdditions(ranked, |selected|, threshold, taken);
    used', fallbacks' := used, fallbacks;
    if used.None? && |selected'| > |selected| {
      FirstReached(ranked, k);
      used' := Some(threshold);
    }
    if threshold < MINIMUM_MEANINGFUL_GAMES && added {
      fallbacks' := fallbacks + [threshold];
    }
  }

  method PassThresholds(ranked: seq<Bucket>) returns (s: Selection)
    requires ByGames(ranked) && DistinctBuckets(ranked) && Reaching(ranked, 1) == |ranked|
    ensures s.selected == TopThree(ranked)
    ensures s.thresholdUsed == if ranked == [] then None else Some(Least(3, ranked[0].games))
    ensures s.fallbacks == FallbacksUsed(ranked)
  {
    var selected: seq<Bucket>, taken: set<BucketKey> := [], {};
    var used: Option<nat>, fallbacks: seq<nat> := None, [];
    var k := 0;
    while k < 3
      invariant k <= 3 && ReachAfter(ranked, k) < 3
      invariant selected == ranked[..ReachAfter(ranked, k)] && taken == Identities(selected)
      invariant used == ThresholdOf(ranked, ReachAfter(ranked, k))
      invariant fallbacks == FallbacksAfter(ranked, k)
      invariant k == 3 ==> fallbacks == FallbacksUsed(ranked)
    {
      ReachGrows(ranked, k);
      selected, taken, used, fallbacks := OnePass(ranked, k, selected, taken, used, fallbacks);
      if k == 2 || ReachAfter(ranked, k + 1) >= 3 {
        FallbacksSettled(ranked, k + 1);
      }
      if |selected| >= TOP_CHAMPION_LIMIT {
        break;
      }
      k := k + 1;
    }
    s := Selection(selected, used, fallbacks);
  }

  /** The whole aggregation: three champions at most, by games, from buckets that conserve the history. */
  method BuildTopChampions(history: seq<Row>, l: Locale) returns (s: Selection, bucketCount: nat, mappingFailures: nat)
    ensures var a := AggregateOf(history, l);
      && s.selected == TopThree(Ranked(a.buckets, l))
      && bucketCount == |a.buckets| && |s.selected| == Least(3, bucketCount)
      && mappingFailures == a.mappingFailures && |Ranked(a.buckets, l)| == bucketCount
      && TotalGames(a.buckets) + mappingFailures == |history|
      && s.thresholdUsed == if bucketCount == 0 then None else Some(Least(3, Ranked(a.buckets, l)[0].games))
  {
    var a := AggregateHistory(history, l);
    AggregateConserves(history, l);
    RankedByGames(a.buckets, l);
    PermutedProper(a.buckets, Ranked(a.buckets, l));
    assert |multiset(Ranked(a.buckets, l))| == |multiset(a.buckets)|;
    s := SelectTopChampions(Ranked(a.buckets, l));
    bucketCount, mappingFailures := |a.buckets|, a.mappingFailures;
  }
}
