/** What one match is worth to a rating: the points of a performance, the weight of a match, and the effect of
    winning and of the opposition. */
module RatingMeaning {
  import opened Domain
  import opened InhouseMmr
  import opened Prelude
  import opened Rounding

  // ---- the points of a performance ----

  ghost predicate Won(s: PlayerStat) {
    s.result.Some? && s.result.value.winningTeam == Some(s.teamSide)
  }

  ghost predicate IsMvp(s: PlayerStat) {
    s.result.Some? && s.result.value.mvpUserId == Some(s.userId)
  }

  /** No contribution rating, or a zero, counts as the middle of the scale. */
  ghost function Contribution(s: PlayerStat): int {
    if s.contributionRating.None? || s.contributionRating.value == 0 then 3 else s.contributionRating.value
  }

  ghost function LanePoints(r: LaneResult): int {
    match r
    case Win => 10
    case Even => 0
    case Unknown => 0
    case Lose => -10
  }

  /** Four points for each step off the middle, two steps at most. */
  ghost function ContributionPoints(c: int): int {
    if c <= 1 then -8 else if c == 2 then -4 else if c == 3 then 0 else if c == 4 then 4 else 8
  }

  /** 100 for a win, 10 for the lane, 4 per step of contribution and 4 for the MVP. */
  ghost function Points(s: PlayerStat): int {
    (if Won(s) then 100 else 0) + LanePoints(s.laneResult) + ContributionPoints(Contribution(s))
    + (if IsMvp(s) then 4 else 0)
  }

  ghost function Cut(n: int, low: int, high: int): int {
    if n < low then low else if n > high then high else n
  }

  lemma CutCents(n: int, low: int, high: int)
    requires low <= high
    ensures Clamp(Cents(n), Cents(low), Cents(high)) == Cents(Cut(n, low, high))
  {
    NearestOfCents(n);
  }

  lemma ContributionCents(c: int)
    ensures Clamp((c - 3) as real * 0.04, -0.08, 0.08) == Cents(ContributionPoints(c))
  {
    assert (c - 3) as real * 0.04 == Cents(4 * (c - 3));
    assert -0.08 == Cents(-8) && 0.08 == Cents(8);
    CutCents(4 * (c - 3), -8, 8);
  }

  lemma LaneCents(r: LaneResult)
    ensures LaneModifier(r) == Cents(LanePoints(r))
  {
  }

  lemma CentsSum(a: int, b: int, c: int, d: int)
    ensures Cents(a) + Cents(b) + Cents(c) + Cents(d) == Cents(a + b + c + d)
  {
  }

  lemma ScoreParts(s: PlayerStat, won: int, mvp: int)
    requires won == (if Won(s) then 100 else 0) && mvp == (if IsMvp(s) then 4 else 0)
    ensures var lane, contribution := LanePoints(s.laneResult), ContributionPoints(Contribution(s));
      ActualScore(s) == Clamp(Cents(won) + Cents(lane) + Cents(contribution) + Cents(mvp), Cents(0), Cents(100))
  {
    LaneCents(s.laneResult);
    ContributionCents(Contribution(s));
  }

  /** The score of a performance is its points in hundredths, cut to 0 and 1. */
  lemma ScoreInPoints(s: PlayerStat)
    ensures ActualScore(s) == Cents(Cut(Points(s), 0, 100))
  {
    var won, mvp := if Won(s) then 100 else 0, if IsMvp(s) then 4 else 0;
    ScoreParts(s, won, mvp);
    CentsSum(won, LanePoints(s.laneResult), ContributionPoints(Contribution(s)), mvp);
    CutCents(Points(s), 0, 100);
  }

  // ---- the weight of a match ----

  /** The rating of the match by its players, on a scale of 1 to 5, 3 when there is none. */
  ghost function MatchRating(s: PlayerStat): int {
    if s.result.None? || s.result.value.balanceRating.None? then 3 else Cut(s.result.value.balanceRating.value, 1, 5)
  }

  ghost function Status(s: PlayerStat): ResultStatus {
    match s.result
    case Some(result) => result.status
    case None => s.statStatus
  }

  /** In hundredths: 80 to 100 for a confirmed match, half of that, rounded up, for an unconfirmed one, and nothing
      for a disputed one. */
  ghost function Weight(status: ResultStatus, rating: int): int {
    match status
    case CONFIRMED => 75 + 5 * rating
    case PARTIAL => (76 + 5 * rating) / 2
    case DISPUTED => 0
  }

  lemma BalanceCents(rating: Option<int>)
    ensures BalanceWeight(rating) == Cents(75 + 5 * if rating.None? then 3 else Cut(rating.value, 1, 5))
  {
    var safe := if rating.None? then 3 else Cut(rating.value, 1, 5);
    assert 0.8 + (safe - 1) as real * 0.05 == Cents(75 + 5 * safe);
    assert 0.8 == Cents(80) && 1.0 == Cents(100);
    CutCents(75 + 5 * safe, 80, 100);
  }

  lemma WeightCents(status: ResultStatus, rating: int)
    requires 1 <= rating <= 5
    ensures Clamp(ConfidenceBase(status) * Cents(75 + 5 * rating), 0.0, 1.0) == Cents(Weight(status, rating))
  {
    match status
    case CONFIRMED =>
      ScaledOnce(75 + 5 * rating);
    case PARTIAL =>
      HalfCents(75 + 5 * rating);
    case DISPUTED =>
      ScaledNever(75 + 5 * rating);
  }

  lemma ScaledOnce(n: int)
    requires 80 <= n <= 100
    ensures Clamp(1.0 * Cents(n), 0.0, 1.0) == Cents(n)
  {
    CutCents(n, 0, 100);
  }

  lemma ScaledNever(n: int)
    ensures Clamp(0.0 * Cents(n), 0.0, 1.0) == Cents(0)
  {
    CutCents(0, 0, 100);
  }

  lemma HalfCents(n: int)
    requires 80 <= n <= 100
    ensures Clamp(0.5 * Cents(n), 0.0, 1.0) == Cents((n + 1) / 2)
  {
    var half := 0.5 * Cents(n) * 100.0;
    assert half == n as real / 2.0;
    assert (half + 0.5).Floor == (n + 1) / 2;
    assert Hundredths(0.5 * Cents(n)) == (n + 1) / 2;
    assert 0.0 <= Cents((n + 1) / 2) <= 1.0;
  }

  /** What a match weighs. */
  lemma ConfidenceInHundredths(s: PlayerStat)
    ensures Confidence(s) == Cents(Weight(Status(s), MatchRating(s)))
  {
    BalanceCents(if s.result.Some? then s.result.value.balanceRating else None);
    WeightCents(Status(s), MatchRating(s));
  }

  // ---- the rating of a team ----

  /** The rating a player enters a team average with: the player's own rating or, for anybody else, ten points per
      unit of power above or below 1000, between 900 and 2100. */
  ghost function EntryRating(p: Teammate, userId: string, own: real): real {
    if p.userId == userId then own else Clamp(1000.0 + p.power * 10.0, 900.0, 2100.0)
  }

  lemma EntryInWords(p: Teammate, userId: string, own: real)
    requires p.userId != userId
    ensures var r := EntryRating(p, userId, own);
      && (p.power <= -10.0 ==> r == 900.0) && (p.power >= 110.0 ==> r == 2100.0)
      && (-10.0 <= p.power <= 110.0 ==> -0.005 <= r - (1000.0 + p.power * 10.0) <= 0.005)
  {
    Bounds();
    var value := 1000.0 + p.power * 10.0;
    ClampAtBounds(value, 900.0, 2100.0);
    if 900.0 <= value <= 2100.0 {
      ClampIsClose(value, 900.0, 2100.0);
    }
  }

  /** A team's total starts at nothing and gains one entry for every further player of its side. */
  lemma {:induction false} TotalAppend(players: seq<Teammate>, p: Teammate, side: TeamSide, userId: string, own: real)
    ensures TeamTotal([], side, userId, own) == (0.0, 0)
    ensures var (sum, n) := TeamTotal(players, side, userId, own);
      TeamTotal(players + [p], side, userId, own)
        == if p.teamSide == Some(side) then (sum + EntryRating(p, userId, own), n + 1) else (sum, n)
  {
    if players == [] {
      assert ([] + [p])[1..] == [];
    } else {
      assert (players + [p])[1..] == players[1..] + [p];
      TotalAppend(players[1..], p, side, userId, own);
    }
  }

  /** The same people on the same sides, nobody of the given side weaker than before. */
  ghost predicate NoWeaker(ps: seq<Teammate>, qs: seq<Teammate>, side: TeamSide) {
    && |ps| == |qs|
    && forall i :: 0 <= i < |ps| ==>
         && qs[i].userId == ps[i].userId && qs[i].teamSide == ps[i].teamSide
         && (ps[i].teamSide == Some(side) ==> ps[i].power <= qs[i].power)
  }

  lemma {:induction false} TotalGrows(ps: seq<Teammate>, qs: seq<Teammate>, side: TeamSide, userId: string, own: real)
    requires NoWeaker(ps, qs, side)
    ensures var (sum, n) := TeamTotal(ps, side, userId, own);
      var (sum', n') := TeamTotal(qs, side, userId, own);
      sum <= sum' && n == n'
  {
    if ps == [] {
    } else {
      TotalGrows(ps[1..], qs[1..], side, userId, own);
      if ps[0].teamSide == Some(side) {
        ClampMonotone(1000.0 + ps[0].power * 10.0, 1000.0 + qs[0].power * 10.0, 900.0, 2100.0);
      }
    }
  }

  lemma AverageGrows(ps: seq<Teammate>, qs: seq<Teammate>, side: TeamSide, userId: string, own: real)
    requires NoWeaker(ps, qs, side)
    ensures TeamAverage(ps, side, userId, own) <= TeamAverage(qs, side, userId, own)
  {
    TotalGrows(ps, qs, side, userId, own);
    var (sum, n) := TeamTotal(ps, side, userId, own);
    var (sum', _) := TeamTotal(qs, side, userId, own);
    if n > 0 {
      assert sum / n as real <= sum' / n as real;
      ClampMonotone(sum / n as real, sum' / n as real, 900.0, 2100.0);
    }
  }

  /** An empty team counts as 1500; any other within half a hundredth of the mean of its entries, which the rounding
      keeps between 900 and 2100. */
  lemma AverageInWords(players: seq<Teammate>, side: TeamSide, userId: string, own: real)
    ensures var (sum, n) := TeamTotal(players, side, userId, own);
      && (n == 0 ==> TeamAverage(players, side, userId, own) == 1500.0)
      && (n > 0 && 900.0 <= sum / n as real <= 2100.0 ==>
            -0.005 <= TeamAverage(players, side, userId, own) - sum / n as real <= 0.005)
  {
    Bounds();
    var (sum, n) := TeamTotal(players, side, userId, own);
    if n > 0 && 900.0 <= sum / n as real <= 2100.0 {
      ClampIsClose(sum / n as real, 900.0, 2100.0);
    }
  }

  // ---- the change ----

  ghost function Opponents(side: TeamSide): TeamSide {
    match side
    case A => B
    case B => A
  }

  /** The score expected of a team: the logistic of a four-hundredth of its deficit. */
  ghost function Expected(s: PlayerStat, own: real, c: Context): real {
    var deficit := TeamAverage(s.players, Opponents(s.teamSide), c.userId, own)
                   - TeamAverage(s.players, s.teamSide, c.userId, own);
    Clamp(c.logistic(deficit / 400.0), 0.0, 1.0)
  }

  /** The change for a match of this weight, played for these points. */
  ghost function Worth(weight: int, points: int, expected: real): real {
    Change(Cents(weight), Cents(Cut(points, 0, 100)), expected)
  }

  lemma DeltaInPoints(s: PlayerStat, own: real, c: Context)
    ensures Delta(s, own, c) == Worth(Weight(Status(s), MatchRating(s)), Points(s), Expected(s, own, c))
  {
    ScoreInPoints(s);
    ConfidenceInHundredths(s);
  }

  lemma ChangeGrows(confidence: real, actual: real, expected: real, more: real, less: real)
    requires confidence >= 0.0 && actual - expected <= more - less
    ensures Change(confidence, actual, expected) <= Change(confidence, more, less)
  {
    var k, x, y := 32.0 * confidence, actual - expected, more - less;
    Scaled(k, x, y);
    assert k * x == 32.0 * confidence * (actual - expected) && k * y == 32.0 * confidence * (more - less);
    ClampMonotone(k * x, k * y, -32.0, 32.0);
  }

  lemma WorthGrows(weight: int, points: int, more: int, expected: real, less: real)
    requires weight >= 0 && points <= more && less <= expected
    ensures Worth(weight, points, expected) <= Worth(weight, more, less)
  {
    ChangeGrows(Cents(weight), Cents(Cut(points, 0, 100)), expected, Cents(Cut(more, 0, 100)), less);
  }

  lemma Scaled(k: real, x: real, y: real)
    requires k >= 0.0 && x <= y
    ensures k * x <= k * y
  {
  }

  /** The rating on the role of the match, after it. */
  ghost function RatingAfter(r: Ratings, s: PlayerStat, c: Context): real {
    Played(r, s, c).roleMmr[s.role]
  }

  lemma RatingAfterIs(r: Ratings, s: PlayerStat, c: Context, own: real)
    requires own == Get(r.roleMmr, s.role, 0.0)
    ensures RatingAfter(r, s, c) == Clamp(own + Delta(s, own, c), MIN_RATING, MAX_RATING)
  {
  }

  lemma DeltaDecides(r: Ratings, s: PlayerStat, t: PlayerStat, c: Context)
    requires t.role == s.role
    requires Delta(s, Get(r.roleMmr, s.role, 0.0), c) <= Delta(t, Get(r.roleMmr, s.role, 0.0), c)
    ensures RatingAfter(r, s, c) <= RatingAfter(r, t, c)
  {
    var own := Get(r.roleMmr, s.role, 0.0);
    RatingAfterIs(r, s, c, own);
    RatingAfterIs(r, t, c, own);
    ClampMonotone(own + Delta(s, own, c), own + Delta(t, own, c), MIN_RATING, MAX_RATING);
  }

  /** The same match as it counts for a rating, but for what was played. */
  ghost predicate SameMatch(s: PlayerStat, t: PlayerStat) {
    && t.role == s.role && t.teamSide == s.teamSide && t.players == s.players
    && Status(t) == Status(s) && MatchRating(t) == MatchRating(s)
  }

  /** More points in the same match, by winning, lane, contribution or MVP, never yield a lower rating. */
  lemma BetterNeverLess(r: Ratings, s: PlayerStat, t: PlayerStat, c: Context)
    requires SameMatch(s, t) && Points(s) <= Points(t)
    ensures RatingAfter(r, s, c) <= RatingAfter(r, t, c)
  {
    var own := Get(r.roleMmr, s.role, 0.0);
    DeltaInPoints(s, own, c);
    DeltaInPoints(t, own, c);
    WorthGrows(Weight(Status(s), MatchRating(s)), Points(s), Points(t), Expected(s, own, c), Expected(t, own, c));
    DeltaDecides(r, s, t, c);
  }

  /** Stronger opponents and weaker team-mates never make a match worth less, for any decreasing logistic. */
  lemma TougherNeverLess(r: Ratings, s: PlayerStat, t: PlayerStat, c: Context)
    requires t == s.(players := t.players)
    requires NoWeaker(s.players, t.players, Opponents(s.teamSide)) && NoWeaker(t.players, s.players, s.teamSide)
    requires forall x, y :: x <= y ==> c.logistic(y) <= c.logistic(x)
    ensures RatingAfter(r, s, c) <= RatingAfter(r, t, c)
  {
    var own := Get(r.roleMmr, s.role, 0.0);
    ExpectedFalls(s, t, own, c);
    DeltaInPoints(s, own, c);
    DeltaInPoints(t, own, c);
    WorthGrows(Weight(Status(s), MatchRating(s)), Points(s), Points(t), Expected(s, own, c), Expected(t, own, c));
    DeltaDecides(r, s, t, c);
  }

  lemma ExpectedFalls(s: PlayerStat, t: PlayerStat, own: real, c: Context)
    requires t == s.(players := t.players)
    requires NoWeaker(s.players, t.players, Opponents(s.teamSide)) && NoWeaker(t.players, s.players, s.teamSide)
    requires forall x, y :: x <= y ==> c.logistic(y) <= c.logistic(x)
    ensures Expected(t, own, c) <= Expected(s, own, c)
  {
    AverageGrows(s.players, t.players, Opponents(s.teamSide), c.userId, own);
    AverageGrows(t.players, s.players, s.teamSide, c.userId, own);
    var before := TeamAverage(s.players, Opponents(s.teamSide), c.userId, own)
                  - TeamAverage(s.players, s.teamSide, c.userId, own);
    var after := TeamAverage(t.players, Opponents(s.teamSide), c.userId, own)
                 - TeamAverage(t.players, s.teamSide, c.userId, own);
    assert before / 400.0 <= after / 400.0;
    ClampMonotone(c.logistic(after / 400.0), c.logistic(before / 400.0), 0.0, 1.0);
  }

  /** Winning is worth at least 9.9 points more than losing the same match with the same performance, and at least
      19.9 once the match is confirmed. */
  lemma WinningPays(s: PlayerStat, t: PlayerStat, own: real, c: Context)
    requires SameMatch(s, t) && Status(s) != ResultStatus.DISPUTED && !Won(s) && Won(t)
    requires s.laneResult == t.laneResult && Contribution(s) == Contribution(t) && IsMvp(s) == IsMvp(t)
    ensures Delta(t, own, c) >= Delta(s, own, c) + 9.9
    ensures Status(s) == ResultStatus.CONFIRMED ==> Delta(t, own, c) >= Delta(s, own, c) + 19.9
  {
    DeltaInPoints(s, own, c);
    DeltaInPoints(t, own, c);
    ExpectedInRange(s, own, c);
    WorthApart(Weight(Status(s), MatchRating(s)), Points(s), Expected(s, own, c));
  }

  lemma ExpectedInRange(s: PlayerStat, own: real, c: Context)
    ensures 0.0 <= Expected(s, own, c) <= 1.0
  {
  }

  lemma WorthApart(weight: int, points: int, expected: real)
    requires 40 <= weight <= 100 && -18 <= points <= 22 && 0.0 <= expected <= 1.0
    ensures Worth(weight, points + 100, expected) >= Worth(weight, points, expected) + 9.9
    ensures weight >= 80 ==> Worth(weight, points + 100, expected) >= Worth(weight, points, expected) + 19.9
  {
    ChangeApart(Cents(weight), Cents(Cut(points, 0, 100)), Cents(Cut(points + 100, 0, 100)), expected);
  }

  lemma ChangeApart(confidence: real, lost: real, won: real, expected: real)
    requires 0.4 <= confidence <= 1.0 && 0.0 <= lost && lost + 0.78 <= won <= 1.0 && 0.0 <= expected <= 1.0
    ensures Change(confidence, won, expected) >= Change(confidence, lost, expected) + 9.9
    ensures confidence >= 0.8 ==> Change(confidence, won, expected) >= Change(confidence, lost, expected) + 19.9
  {
    ChangeIsClose(confidence, lost, expected);
    ChangeIsClose(confidence, won, expected);
    UncutApart(confidence, lost, won, expected);
  }

  /** A change before it is rounded and cut. */
  ghost function Uncut(confidence: real, actual: real, expected: real): real {
    32.0 * confidence * (actual - expected)
  }

  lemma UncutApart(confidence: real, lost: real, won: real, expected: real)
    requires confidence >= 0.0 && lost + 0.78 <= won
    ensures Uncut(confidence, won, expected) >= Uncut(confidence, lost, expected) + 24.96 * confidence
  {
    var k, x, y := 32.0 * confidence, lost - expected, won - expected;
    Scaled(k, 0.0, y - x - 0.78);
    assert k * (y - x - 0.78) == k * y - k * x - k * 0.78;
    assert Uncut(confidence, won, expected) == k * y && Uncut(confidence, lost, expected) == k * x;
  }

  /** No cut is reached: a change is off by half a hundredth at most. */
  lemma ChangeIsClose(confidence: real, actual: real, expected: real)
    requires 0.0 <= confidence <= 1.0 && 0.0 <= actual <= 1.0 && 0.0 <= expected <= 1.0
    ensures -0.005 <= Change(confidence, actual, expected) - Uncut(confidence, actual, expected) <= 0.005
  {
    Bounds();
    ProductInRange(32.0 * confidence, actual - expected);
    ClampIsClose(Uncut(confidence, actual, expected), -32.0, 32.0);
  }

  lemma ProductInRange(k: real, x: real)
    requires 0.0 <= k <= 32.0 && -1.0 <= x <= 1.0
    ensures -32.0 <= k * x <= 32.0
  {
    ProductAtMost(k, x);
    ProductAtLeast(k, x);
  }

  lemma ProductAtMost(k: real, x: real)
    requires 0.0 <= k <= 32.0 && x <= 1.0
    ensures k * x <= 32.0
  {
    Scaled(k, x, 1.0);
  }

  lemma ProductAtLeast(k: real, x: real)
    requires 0.0 <= k <= 32.0 && -1.0 <= x
    ensures k * x >= -32.0
  {
    Scaled(k, 0.0, x + 1.0);
    assert k * (x + 1.0) == k * x + k;
  }

  /** Between even teams a plain win is worth 0.16 times the weight of the match, a plain loss as much the other way:
      16 points for a confirmed match its players rate highest, 7.2 for an unconfirmed one nobody rated. */
  lemma EvenMatch(s: PlayerStat, own: real, c: Context)
    requires c.logistic(0.0) == 0.5 && Points(s) == (if Won(s) then 100 else 0)
    requires TeamAverage(s.players, A, c.userId, own) == TeamAverage(s.players, B, c.userId, own)
    ensures Delta(s, own, c)
         == (if Won(s) then 0.16 else -0.16) * Weight(Status(s), MatchRating(s)) as real
  {
    DeltaInPoints(s, own, c);
    EvenTeams(s, own, c);
    EvenWorth(Weight(Status(s), MatchRating(s)), Won(s));
  }

  lemma EvenTeams(s: PlayerStat, own: real, c: Context)
    requires c.logistic(0.0) == 0.5
    requires TeamAverage(s.players, A, c.userId, own) == TeamAverage(s.players, B, c.userId, own)
    ensures Expected(s, own, c) == 0.5
  {
    assert 0.0 / 400.0 == 0.0;
    assert 0.5 == Cents(50) && 0.0 == Cents(0) && 1.0 == Cents(100);
    CutCents(50, 0, 100);
  }

  lemma EvenWorth(weight: int, won: bool)
    requires 0 <= weight <= 100
    ensures Worth(weight, if won then 100 else 0, 0.5) == (if won then 0.16 else -0.16) * weight as real
  {
    var n := if won then 16 * weight else -16 * weight;
    var half := if won then 0.5 else -0.5;
    assert 32.0 * Cents(weight) * half == Cents(n);
    assert 32.0 == Cents(3200) && -32.0 == Cents(-3200);
    CutCents(n, -3200, 3200);
  }

  /** The change is added to the rating on the role, which stays between 900 and 2100. */
  lemma RatingMoves(r: Ratings, s: PlayerStat, c: Context)
    requires RatedLanes(r) && s.role in LANES
    ensures var own := r.roleMmr[s.role];
      var moved := own + Delta(s, own, c);
      RatingAfter(r, s, c) == if moved < 900.0 then 900.0 else if moved > 2100.0 then 2100.0 else moved
  {
    var own := r.roleMmr[s.role];
    Bounds();
    DeltaBounds(s, own, c);
    CentsAdd(own, Delta(s, own, c));
    ClampCuts(own + Delta(s, own, c), 900.0, 2100.0);
  }

  // ---- order and counts ----

  /** When a match counts as played: at the confirmation of its result or, without one, at the creation of the
      statistic. */
  ghost function TimeOf(s: PlayerStat): int {
    match s.result
    case None => s.createdAt
    case Some(result) => match result.confirmedAt
      case None => s.createdAt
      case Some(t) => t
  }

  lemma TimeIsPlayedAt(s: PlayerStat)
    ensures PlayedAt(s) == TimeOf(s)
  {
  }

  /** The matches of one time, in list order. */
  ghost function AtTime(stats: seq<PlayerStat>, t: int): seq<PlayerStat> {
    if stats == [] then []
    else if PlayedAt(stats[0]) == t then [stats[0]] + AtTime(stats[1..], t)
    else AtTime(stats[1..], t)
  }

  lemma AtTimeOf(s: PlayerStat, rest: seq<PlayerStat>, t: int)
    ensures AtTime([s] + rest, t) == if PlayedAt(s) == t then [s] + AtTime(rest, t) else AtTime(rest, t)
  {
    assert ([s] + rest)[1..] == rest;
  }

  lemma {:induction false} InsertIsStable(s: PlayerStat, ys: seq<PlayerStat>, t: int)
    ensures AtTime(InsertByTime(s, ys), t) == AtTime([s] + ys, t)
  {
    if ys != [] && PlayedAt(s) > PlayedAt(ys[0]) {
      InsertIsStable(s, ys[1..], t);
      assert ys == [ys[0]] + ys[1..];
      AtTimeOf(s, ys, t);
      AtTimeOf(s, ys[1..], t);
      AtTimeOf(ys[0], ys[1..], t);
      AtTimeOf(ys[0], InsertByTime(s, ys[1..]), t);
    }
  }

  /** Matches are replayed in the order of their times, and those of one time in the order they are listed. */
  lemma ReplayOrder(stats: seq<PlayerStat>, t: int)
    ensures forall i, j :: 0 <= i < j < |ByTime(stats)| ==> TimeOf(ByTime(stats)[i]) <= TimeOf(ByTime(stats)[j])
    ensures AtTime(ByTime(stats), t) == AtTime(stats, t)
  {
    ByTimeSorts(stats);
    SortIsStable(stats, t);
    forall i | 0 <= i < |ByTime(stats)| ensures PlayedAt(ByTime(stats)[i]) == TimeOf(ByTime(stats)[i]) {
      TimeIsPlayedAt(ByTime(stats)[i]);
    }
  }

  lemma {:induction false} SortIsStable(stats: seq<PlayerStat>, t: int)
    ensures AtTime(ByTime(stats), t) == AtTime(stats, t)
  {
    if stats == [] {
    } else {
      SortIsStable(stats[1..], t);
      InsertIsStable(stats[0], ByTime(stats[1..]), t);
      AtTimeOf(stats[0], ByTime(stats[1..]), t);
      AtTimeOf(stats[0], stats[1..], t);
      assert stats == [stats[0]] + stats[1..];
    }
  }

  ghost predicate ConfirmedOn(s: PlayerStat, role: Option<Position>) {
    Status(s) == ResultStatus.CONFIRMED && (role.None? || s.role == role.value)
  }

  /** The confirmed matches on a role or, without a role, on any. */
  ghost function CountConfirmed(stats: seq<PlayerStat>, role: Option<Position>): nat {
    if stats == [] then 0
    else (if ConfirmedOn(stats[0], role) then 1 else 0) + CountConfirmed(stats[1..], role)
  }

  lemma {:induction false} InsertCountsConfirmed(s: PlayerStat, ys: seq<PlayerStat>, role: Option<Position>)
    ensures CountConfirmed(InsertByTime(s, ys), role)
         == (if ConfirmedOn(s, role) then 1 else 0) + CountConfirmed(ys, role)
  {
    if ys == [] || PlayedAt(s) <= PlayedAt(ys[0]) {
      assert ([s] + ys)[1..] == ys;
    } else {
      InsertCountsConfirmed(s, ys[1..], role);
      assert InsertByTime(s, ys)[1..] == InsertByTime(s, ys[1..]);
    }
  }

  lemma {:induction false} SortCountsConfirmed(stats: seq<PlayerStat>, role: Option<Position>)
    ensures CountConfirmed(ByTime(stats), role) == CountConfirmed(stats, role)
  {
    if stats == [] {
    } else {
      SortCountsConfirmed(stats[1..], role);
      InsertCountsConfirmed(stats[0], ByTime(stats[1..]), role);
    }
  }

  lemma {:induction false} FoldCountsConfirmed(r: Ratings, stats: seq<PlayerStat>, c: Context, role: Position)
    ensures var r' := Fold(r, stats, c);
      && r'.confirmed == r.confirmed + CountConfirmed(stats, None)
      && Get(r'.roleConfirmed, role, 0) == Get(r.roleConfirmed, role, 0) + CountConfirmed(stats, Some(role))
    decreases stats
  {
    if stats == [] {
    } else {
      FoldCountsConfirmed(Played(r, stats[0], c), stats[1..], c, role);
    }
  }

  /** The reported counts are those of the confirmed matches, in all and on each lane. */
  lemma ConfirmedAreCounted(seeds: map<Position, real>, stats: seq<PlayerStat>, c: Context, role: Position)
    requires role in LANES
    ensures var r := Fold(Start(seeds), ByTime(stats), c);
      && r.confirmed == CountConfirmed(stats, None)
      && role in r.roleConfirmed && r.roleConfirmed[role] == CountConfirmed(stats, Some(role))
  {
    FoldCountsConfirmed(Start(seeds), ByTime(stats), c, role);
    FoldKeepsLanes(Start(seeds), ByTime(stats), c, role);
    SortCountsConfirmed(stats, None);
    SortCountsConfirmed(stats, Some(role));
  }

  lemma {:induction false} FoldKeepsLanes(r: Ratings, stats: seq<PlayerStat>, c: Context, role: Position)
    requires role in r.roleConfirmed
    ensures role in Fold(r, stats, c).roleConfirmed
    decreases stats
  {
    if stats == [] {
    } else {
      FoldKeepsLanes(Played(r, stats[0], c), stats[1..], c, role);
    }
  }
}
