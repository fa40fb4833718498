/** The rating fold over a player's in-house matches. */
module InhouseMmr {
  import opened Domain
  import opened Prelude
  import opened Rounding

  datatype LaneResult = Win | Even | Lose | Unknown

  datatype Teammate = Teammate(userId: string, teamSide: Option<TeamSide>, power: real)

  datatype MatchResult = MatchResult(
    winningTeam: Option<TeamSide>, balanceRating: Option<int>, status: ResultStatus, confirmedAt: Option<int>,
    mvpUserId: Option<string>)

  datatype PlayerStat = PlayerStat(
    matchId: string, userId: string, role: Position, teamSide: TeamSide, laneResult: LaneResult,
    contributionRating: Option<int>, statStatus: ResultStatus, createdAt: int, players: seq<Teammate>,
    result: Option<MatchResult>)

  /** logistic stands for x |-> 1 / (1 + 10 ** x). */
  datatype Context = Context(userId: string, logistic: real -> real)

  datatype Ratings = Ratings(roleMmr: map<Position, real>, confirmed: nat, roleConfirmed: map<Position, nat>)

  const MIN_RATING: real := 900.0
  const MAX_RATING: real := 2100.0

  function PlayedAt(s: PlayerStat): (r: int) {
    if s.result.Some? && s.result.value.confirmedAt.Some? then s.result.value.confirmedAt.value else s.createdAt
  }

  function StatusOf(s: PlayerStat): (r: ResultStatus) {
    if s.result.Some? then s.result.value.status else s.statStatus
  }

  function ConfidenceBase(status: ResultStatus): (r: real) {
    match status
    case CONFIRMED => 1.0
    case PARTIAL => 0.5
    case DISPUTED => 0.0
  }

  function BalanceWeight(balanceRating: Option<int>): (r: real) {
    var rating := if balanceRating.Some? then balanceRating.value else 3;
    var floored := if rating > 1 then rating else 1;
    var safe := if floored < 5 then floored else 5;
    Clamp(0.8 + (safe - 1) as real * 0.05, 0.8, 1.0)
  }

  function TeamTotal(players: seq<Teammate>, side: TeamSide, userId: string, own: real): (r: (real, nat)) {
    if players == [] then (0.0, 0)
    else
      var (sum, n) := TeamTotal(players[1..], side, userId, own);
      if players[0].teamSide != Some(side) then (sum, n)
      else
        var rating := if players[0].userId == userId then own
                      else Clamp(1000.0 + players[0].power * 10.0, MIN_RATING, MAX_RATING);
        (rating + sum, n + 1)
  }

  function TeamAverage(players: seq<Teammate>, side: TeamSide, userId: string, own: real): (r: real) {
    var (sum, n) := TeamTotal(players, side, userId, own);
    if n == 0 then 1500.0 else Clamp(sum / n as real, MIN_RATING, MAX_RATING)
  }

  function LaneModifier(r: LaneResult): (m: real) {
    match r
    case Win => 0.1
    case Lose => -0.1
    case Even => 0.0
    case Unknown => 0.0
  }

  function ActualScore(s: PlayerStat): (r: real) {
    var won := s.result.Some? && s.result.value.winningTeam == Some(s.teamSide);
    var contribution :=
      if s.contributionRating.Some? && s.contributionRating.value != 0
      then Clamp((s.contributionRating.value - 3) as real * 0.04, -0.08, 0.08) else 0.0;
    var mvp := if s.result.Some? && s.result.value.mvpUserId == Some(s.userId) then 0.04 else 0.0;
    Clamp((if won then 1.0 else 0.0) + LaneModifier(s.laneResult) + contribution + mvp, 0.0, 1.0)
  }

  /** How much a match counts: by its status and by the rating its players gave it. */
  function Confidence(s: PlayerStat): (r: real) {
    var balance := BalanceWeight(if s.result.Some? then s.result.value.balanceRating else None);
    Clamp(ConfidenceBase(StatusOf(s)) * balance, 0.0, 1.0)
  }

  function ExpectedScore(s: PlayerStat, own: real, c: Context): (r: real) {
    var team := TeamAverage(s.players, s.teamSide, c.userId, own);
    var opponents := TeamAverage(s.players, if s.teamSide == A then B else A, c.userId, own);
    Clamp(c.logistic((opponents - team) / 400.0), 0.0, 1.0)
  }

  function Change(confidence: real, actual: real, expected: real): (r: real) {
    Clamp(32.0 * confidence * (actual - expected), -32.0, 32.0)
  }

  /** The rating change of one match, given the player's rating on its role. */
  function Delta(s: PlayerStat, own: real, c: Context): (r: real) {
    Change(Confidence(s), ActualScore(s), ExpectedScore(s, own, c))
  }

  function Get<V>(m: map<Position, V>, role: Position, default: V): (r: V) {
    if role in m then m[role] else default
  }

  function Played(r: Ratings, s: PlayerStat, c: Context): (r': Ratings) {
    var own := Get(r.roleMmr, s.role, 0.0);
    var isConfirmed := StatusOf(s) == ResultStatus.CONFIRMED;
    Ratings(
      r.roleMmr[s.role := Clamp(own + Delta(s, own, c), MIN_RATING, MAX_RATING)],
      if isConfirmed then r.confirmed + 1 else r.confirmed,
      if isConfirmed then r.roleConfirmed[s.role := Get(r.roleConfirmed, s.role, 0) + 1] else r.roleConfirmed)
  }

  function Fold(r: Ratings, stats: seq<PlayerStat>, c: Context): (r': Ratings)
    decreases stats
  {
    if stats == [] then r else Fold(Played(r, stats[0], c), stats[1..], c)
  }

  function InsertByTime(s: PlayerStat, ys: seq<PlayerStat>): (r: seq<PlayerStat>) {
    if ys == [] || PlayedAt(s) <= PlayedAt(ys[0]) then [s] + ys else [ys[0]] + InsertByTime(s, ys[1..])
  }

  /** The stable sort by ascending play time. */
  function ByTime(stats: seq<PlayerStat>): (r: seq<PlayerStat>) {
    if stats == [] then [] else InsertByTime(stats[0], ByTime(stats[1..]))
  }

  function Start(seeds: map<Position, real>): (r: Ratings) {
    Ratings(seeds, 0, map role | role in LANES :: 0)
  }

  method Calculate(seeds: map<Position, real>, stats: seq<PlayerStat>, c: Context) returns (r: Ratings)
    ensures r == Fold(Start(seeds), ByTime(stats), c)
  {
    var sorted := ByTime(stats);
    r := Start(seeds);
    var i := 0;
    while i < |sorted|
      invariant i <= |sorted|
      invariant Fold(r, sorted[i..], c) == Fold(Start(seeds), sorted, c)
    {
      assert sorted[i..][1..] == sorted[i + 1..];
      r := Played(r, sorted[i], c);
      i := i + 1;
    }
  }

  // ---- order of the input ----

  ghost predicate Ascending(stats: seq<PlayerStat>) {
    forall i, j :: 0 <= i < j < |stats| ==> PlayedAt(stats[i]) <= PlayedAt(stats[j])
  }

  ghost predicate DistinctTimes(stats: multiset<PlayerStat>) {
    forall x, y :: x in stats && y in stats && PlayedAt(x) == PlayedAt(y) ==> x == y && stats[x] == 1
  }

  lemma {:induction false} InsertPermutes(s: PlayerStat, ys: seq<PlayerStat>)
    ensures multiset(InsertByTime(s, ys)) == multiset{s} + multiset(ys)
  {
    if ys == [] {
    } else {
      InsertPermutes(s, ys[1..]);
      assert ys == [ys[0]] + ys[1..];
    }
  }

  lemma {:induction false} InsertMembers(s: PlayerStat, ys: seq<PlayerStat>)
    ensures forall x :: x in InsertByTime(s, ys) <==> x == s || x in ys
  {
    if ys == [] || PlayedAt(s) <= PlayedAt(ys[0]) {
    } else {
      InsertMembers(s, ys[1..]);
    }
  }

  lemma {:induction false} InsertAscends(s: PlayerStat, ys: seq<PlayerStat>)
    requires Ascending(ys)
    ensures Ascending(InsertByTime(s, ys))
  {
    if ys == [] || PlayedAt(s) <= PlayedAt(ys[0]) {
    } else {
      InsertAscends(s, ys[1..]);
      InsertMembers(s, ys[1..]);
      var rest := InsertByTime(s, ys[1..]);
      forall j | 0 <= j < |rest| ensures PlayedAt(ys[0]) <= PlayedAt(rest[j]) {
        assert rest[j] in rest;
      }
    }
  }

  lemma {:induction false} ByTimeSorts(stats: seq<PlayerStat>)
    ensures Ascending(ByTime(stats)) && multiset(ByTime(stats)) == multiset(stats)
  {
    if stats == [] {
    } else {
      ByTimeSorts(stats[1..]);
      InsertPermutes(stats[0], ByTime(stats[1..]));
      InsertAscends(stats[0], ByTime(stats[1..]));
      assert stats == [stats[0]] + stats[1..];
    }
  }

  lemma FirstIsEarliest(a: seq<PlayerStat>, b: seq<PlayerStat>)
    requires a != [] && b != [] && Ascending(a) && Ascending(b)
    requires multiset(a) == multiset(b) && DistinctTimes(multiset(a))
    ensures a[0] == b[0]
  {
    assert a[0] in multiset(b) && b[0] in multiset(a);
    var i :| 0 <= i < |b| && b[i] == a[0];
    var j :| 0 <= j < |a| && a[j] == b[0];
    assert PlayedAt(a[0]) == PlayedAt(b[0]);
  }

  lemma TailMultiset(a: seq<PlayerStat>)
    requires a != []
    ensures multiset(a) == multiset{a[0]} + multiset(a[1..])
  {
    assert a == [a[0]] + a[1..];
  }

  lemma FewerDistinctTimes(all: multiset<PlayerStat>, some: multiset<PlayerStat>)
    requires DistinctTimes(all) && some <= all
    ensures DistinctTimes(some)
  {
  }

  lemma DropFirst(a: seq<PlayerStat>)
    requires a != [] && Ascending(a) && DistinctTimes(multiset(a))
    ensures multiset(a[1..]) == multiset(a) - multiset{a[0]}
    ensures Ascending(a[1..]) && DistinctTimes(multiset(a[1..]))
  {
    TailMultiset(a);
    FewerDistinctTimes(multiset(a), multiset(a[1..]));
  }

  /** With distinct play times there is only one sorted listing. */
  lemma {:induction false} SortedIsUnique(a: seq<PlayerStat>, b: seq<PlayerStat>)
    requires Ascending(a) && Ascending(b) && multiset(a) == multiset(b) && DistinctTimes(multiset(a))
    ensures a == b
  {
    assert |multiset(a)| == |a| && |multiset(b)| == |b|;
    if a == [] {
    } else {
      FirstIsEarliest(a, b);
      DropFirst(a);
      DropFirst(b);
      SortedIsUnique(a[1..], b[1..]);
    }
  }

  /** The rating does not depend on the order the matches are listed in. */
  lemma OrderIsIrrelevant(seeds: map<Position, real>, a: seq<PlayerStat>, b: seq<PlayerStat>, c: Context)
    requires multiset(a) == multiset(b) && DistinctTimes(multiset(a))
    ensures Fold(Start(seeds), ByTime(a), c) == Fold(Start(seeds), ByTime(b), c)
  {
    ByTimeSorts(a);
    ByTimeSorts(b);
    SortedIsUnique(ByTime(a), ByTime(b));
  }

  // ---- bounds ----

  /** Seeds are clamped ratings; every rating of the fold is one as well. */
  ghost predicate Rating(x: real) {
    IsCents(x) && MIN_RATING <= x <= MAX_RATING
  }

  ghost predicate RatedLanes(r: Ratings) {
    forall role :: role in LANES ==> role in r.roleMmr && Rating(r.roleMmr[role])
  }

  lemma Bounds()
    ensures IsCents(MIN_RATING) && IsCents(MAX_RATING)
    ensures IsCents(32.0) && IsCents(-32.0) && IsCents(0.0) && IsCents(1.0)
  {
    assert 900.0 == Cents(90000) && 2100.0 == Cents(210000);
    assert 32.0 == Cents(3200) && -32.0 == Cents(-3200);
    assert 0.0 == Cents(0) && 1.0 == Cents(100);
  }

  lemma ChangeBounds(confidence: real, actual: real, expected: real)
    ensures IsCents(Change(confidence, actual, expected)) && -32.0 <= Change(confidence, actual, expected) <= 32.0
    ensures confidence == 0.0 ==> Change(confidence, actual, expected) == 0.0
  {
    Bounds();
    ClampYieldsCents(32.0 * confidence * (actual - expected), -32.0, 32.0);
    ClampCuts(0.0, -32.0, 32.0);
  }

  lemma DeltaBounds(s: PlayerStat, own: real, c: Context)
    ensures IsCents(Delta(s, own, c)) && -32.0 <= Delta(s, own, c) <= 32.0
    ensures StatusOf(s) == ResultStatus.DISPUTED ==> Delta(s, own, c) == 0.0
  {
    ChangeBounds(Confidence(s), ActualScore(s), ExpectedScore(s, own, c));
    if StatusOf(s) == ResultStatus.DISPUTED {
      DisputedCountsNothing(s);
    }
  }

  lemma DisputedCountsNothing(s: PlayerStat)
    requires StatusOf(s) == ResultStatus.DISPUTED
    ensures Confidence(s) == 0.0
  {
    Bounds();
    ClampCuts(0.0, 0.0, 1.0);
  }

  /** One match keeps every rating in range, moves only its own role, by at most 32, and not at all when
      it is disputed. */
  lemma PlayedBounds(r: Ratings, s: PlayerStat, c: Context)
    requires RatedLanes(r) && s.role in LANES
    ensures var r' := Played(r, s, c);
      && RatedLanes(r')
      && (forall role :: role in LANES && role != s.role ==> r'.roleMmr[role] == r.roleMmr[role])
      && r.roleMmr[s.role] - 32.0 <= r'.roleMmr[s.role] <= r.roleMmr[s.role] + 32.0
      && (StatusOf(s) == ResultStatus.DISPUTED ==> r' == r)
  {
    var own := r.roleMmr[s.role];
    Bounds();
    DeltaBounds(s, own, c);
    CentsAdd(own, Delta(s, own, c));
    ClampYieldsCents(own + Delta(s, own, c), MIN_RATING, MAX_RATING);
    ClampCuts(own + Delta(s, own, c), MIN_RATING, MAX_RATING);
    if StatusOf(s) == ResultStatus.DISPUTED {
      assert r.roleMmr[s.role := own] == r.roleMmr;
    }
  }

  ghost predicate LaneStats(stats: seq<PlayerStat>) {
    forall s :: s in stats ==> s.role in LANES
  }

  function CountOn(stats: seq<PlayerStat>, role: Position): (r: nat) {
    if stats == [] then 0 else (if stats[0].role == role then 1 else 0) + CountOn(stats[1..], role)
  }

  /** Over a whole history every rating stays in range and moves at most 32 per match on its role, so an
      unplayed role keeps its seed. */
  lemma {:induction false} FoldBounds(r: Ratings, stats: seq<PlayerStat>, c: Context, role: Position)
    requires RatedLanes(r) && LaneStats(stats) && role in LANES
    ensures var r' := Fold(r, stats, c);
      && RatedLanes(r')
      && r.roleMmr[role] - 32.0 * CountOn(stats, role) as real <= r'.roleMmr[role]
      && r'.roleMmr[role] <= r.roleMmr[role] + 32.0 * CountOn(stats, role) as real
    decreases stats
  {
    if stats == [] {
    } else {
      assert stats[0] in stats;
      PlayedBounds(r, stats[0], c);
      FoldBounds(Played(r, stats[0], c), stats[1..], c, role);
    }
  }

  lemma {:induction false} InsertCounts(s: PlayerStat, ys: seq<PlayerStat>, role: Position)
    ensures CountOn(InsertByTime(s, ys), role) == (if s.role == role then 1 else 0) + CountOn(ys, role)
  {
    if ys == [] || PlayedAt(s) <= PlayedAt(ys[0]) {
      assert ([s] + ys)[1..] == ys;
    } else {
      InsertCounts(s, ys[1..], role);
      assert InsertByTime(s, ys)[1..] == InsertByTime(s, ys[1..]);
    }
  }

  lemma {:induction false} SortCounts(stats: seq<PlayerStat>, role: Position)
    ensures CountOn(ByTime(stats), role) == CountOn(stats, role)
  {
    if stats == [] {
    } else {
      SortCounts(stats[1..], role);
      InsertCounts(stats[0], ByTime(stats[1..]), role);
    }
  }

  lemma SortedLaneStats(stats: seq<PlayerStat>)
    requires LaneStats(stats)
    ensures LaneStats(ByTime(stats))
  {
    ByTimeSorts(stats);
    forall s | s in ByTime(stats) ensures s.role in LANES {
      assert s in multiset(ByTime(stats));
      assert s in stats;
    }
  }

  /** The ratings the calculator returns: in range, at most 32 per match on the role away from the seed, and the
      seed itself on an unplayed role. */
  lemma RatingsAreBounded(seeds: map<Position, real>, stats: seq<PlayerStat>, c: Context, role: Position)
    requires RatedLanes(Start(seeds)) && LaneStats(stats) && role in LANES
    ensures var r := Fold(Start(seeds), ByTime(stats), c);
      && RatedLanes(r)
      && seeds[role] - 32.0 * CountOn(stats, role) as real <= r.roleMmr[role]
      && r.roleMmr[role] <= seeds[role] + 32.0 * CountOn(stats, role) as real
      && (CountOn(stats, role) == 0 ==> r.roleMmr[role] == seeds[role])
  {
    SortedLaneStats(stats);
    SortCounts(stats, role);
    FoldBounds(Start(seeds), ByTime(stats), c, role);
  }

  // ---- disputed matches ----

  function Undisputed(stats: seq<PlayerStat>): (r: seq<PlayerStat>) {
    if stats == [] then []
    else if StatusOf(stats[0]) == ResultStatus.DISPUTED then Undisputed(stats[1..])
    else [stats[0]] + Undisputed(stats[1..])
  }

  lemma {:induction false} FoldSkipsDisputed(r: Ratings, stats: seq<PlayerStat>, c: Context)
    requires RatedLanes(r) && LaneStats(stats)
    ensures Fold(r, Undisputed(stats), c) == Fold(r, stats, c)
    decreases stats
  {
    if stats == [] {
    } else {
      assert stats[0] in stats;
      PlayedBounds(r, stats[0], c);
      FoldSkipsDisputed(Played(r, stats[0], c), stats[1..], c);
      if StatusOf(stats[0]) != ResultStatus.DISPUTED {
        assert Undisputed(stats)[1..] == Undisputed(stats[1..]);
      }
    }
  }

  lemma {:induction false} UndisputedMembers(stats: seq<PlayerStat>)
    ensures forall s :: s in Undisputed(stats) ==> s in stats
  {
    if stats == [] {
    } else {
      UndisputedMembers(stats[1..]);
    }
  }

  lemma {:induction false} InsertThenFilter(s: PlayerStat, ys: seq<PlayerStat>)
    requires Ascending(ys)
    ensures Undisputed(InsertByTime(s, ys)) ==
      if StatusOf(s) == ResultStatus.DISPUTED then Undisputed(ys) else InsertByTime(s, Undisputed(ys))
  {
    if ys == [] {
    } else if PlayedAt(s) <= PlayedAt(ys[0]) {
      assert ([s] + ys)[1..] == ys;
      var kept := Undisputed(ys);
      UndisputedMembers(ys);
      if kept != [] {
        assert kept[0] in kept && kept[0] in ys;
        var i :| 0 <= i < |ys| && ys[i] == kept[0];
        assert PlayedAt(ys[0]) <= PlayedAt(ys[i]);
      }
    } else {
      InsertThenFilter(s, ys[1..]);
      var tail := InsertByTime(s, ys[1..]);
      assert InsertByTime(s, ys) == [ys[0]] + tail && ([ys[0]] + tail)[1..] == tail;
      if StatusOf(ys[0]) != ResultStatus.DISPUTED {
        assert Undisputed(ys)[1..] == Undisputed(ys[1..]);
      }
    }
  }

  lemma {:induction false} SortThenFilter(stats: seq<PlayerStat>)
    ensures Undisputed(ByTime(stats)) == ByTime(Undisputed(stats))
  {
    if stats == [] {
    } else {
      SortThenFilter(stats[1..]);
      ByTimeSorts(stats[1..]);
      InsertThenFilter(stats[0], ByTime(stats[1..]));
      if StatusOf(stats[0]) != ResultStatus.DISPUTED {
        assert Undisputed(stats)[1..] == Undisputed(stats[1..]);
      }
    }
  }

  /** Leaving out disputed matches changes no rating and no count. */
  lemma DisputedChangeNothing(seeds: map<Position, real>, stats: seq<PlayerStat>, c: Context)
    requires RatedLanes(Start(seeds)) && LaneStats(stats)
    ensures Fold(Start(seeds), ByTime(Undisputed(stats)), c) == Fold(Start(seeds), ByTime(stats), c)
  {
    SortedLaneStats(stats);
    SortThenFilter(stats);
    FoldSkipsDisputed(Start(seeds), ByTime(stats), c);
  }
}
