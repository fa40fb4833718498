/** What the metrics of a split measure: the cost both role searches minimised, the lane-by-lane power gap, the
    repeated team-mates, the violated preferences, and the gaps between team powers and between their spreads. */
module MetricMeaning {
  import opened Balancer
  import opened Domain
  import opened PairHistory
  import opened Prelude
  import opened RoleSearch
  import opened TeamMetrics

  lemma SeatCost(all: seq<Player>, team: seq<Player>, a: seq<nat>, r: nat)
    requires DistinctUsers(all) && (forall p :: p in team ==> p in all)
    requires Solves(TeamProblem(team), a) && r < 5
    ensures OffRoleSum(all, [Seats(team, a)[r]]) == RoleDistance(team[a[r]], LANES[r]) as real / 10.0
    ensures RoleCost(team[a[r]], LANES[r]) == Finite(RoleDistance(team[a[r]], LANES[r]))
  {
    assert TeamProblem(team).cost(a[r], r).Finite?;
    assert team[a[r]] in team;
    FindPlayerFinds(all, team[a[r]]);
    var seat := Seats(team, a)[r];
    assert [seat][1..] == [];
    assert OffRoleSum(all, []) == 0.0;
  }

  /** The off-role sum looks every seat's player up again, and arrives at a tenth of the search's total. */
  lemma {:induction false} SeatsCost(all: seq<Player>, team: seq<Player>, a: seq<nat>, n: nat)
    requires DistinctUsers(all) && (forall p :: p in team ==> p in all)
    requires Solves(TeamProblem(team), a) && n <= 5
    ensures OffRoleSum(all, Seats(team, a)[..n]) == Total(TeamProblem(team), a[..n]) as real / 10.0
    decreases n
  {
    if n == 0 {
    } else {
      SeatsCost(all, team, a, n - 1);
      SeatCost(all, team, a, n - 1);
      var seats := Seats(team, a);
      assert seats[..n] == seats[..n - 1] + [seats[n - 1]];
      OffRoleSumConcat(all, seats[..n - 1], [seats[n - 1]]);
      assert a[..n][..n - 1] == a[..n - 1];
      assert TeamProblem(team).cost(a[n - 1], n - 1) == RoleCost(team[a[n - 1]], LANES[n - 1]);
    }
  }

  lemma TeamCost(all: seq<Player>, team: seq<Player>)
    requires DistinctUsers(all) && (forall p :: p in team ==> p in all) && SeatTeam(team).Some?
    ensures OffRoleSum(all, SeatTeam(team).value.seats) == Solve(TeamProblem(team)).value.cost as real / 10.0
  {
    SolveIsOptimal(TeamProblem(team));
    var a := Solve(TeamProblem(team)).value.assignment;
    SeatsCost(all, team, a, 5);
    assert Seats(team, a)[..5] == Seats(team, a) && a[..5] == a;
  }

  lemma NearestWhole(k: int)
    ensures Nearest(k as real) == k
  {
  }

  /** Rounding to four digits leaves tenths alone. */
  lemma FixedTenths(n: nat)
    ensures ToFixed4(n as real / 10.0) == n as real / 10.0
  {
    var x := n as real / 10.0;
    assert x * 10000.0 == (n * 1000) as real;
    NearestWhole(n * 1000);
  }

  lemma OffRoleTerm(pa: seq<Player>, pb: seq<Player>, a: seq<Seat>, b: seq<Seat>, ctx: Context, n: nat)
    requires a != [] && b != [] && OffRoleSum(pa + pb, a + b) == n as real / 10.0
    ensures Evaluate(pa, pb, a, b, ctx.history, ctx.sqrt).offRolePenalty == n as real / 10.0
  {
    OffRoleEvaluated(pa, pb, a, b, ctx);
    FixedTenths(n);
  }

  lemma OffRoleEvaluated(pa: seq<Player>, pb: seq<Player>, a: seq<Seat>, b: seq<Seat>, ctx: Context)
    requires a != [] && b != []
    ensures Evaluate(pa, pb, a, b, ctx.history, ctx.sqrt).offRolePenalty == ToFixed4(OffRoleSum(pa + pb, a + b))
  {
  }

  /** The off-role penalty of a split is a tenth of the two minimal assignment costs together. */
  lemma OffRolePenaltyIsSearchCost(teamA: seq<Player>, teamB: seq<Player>, ctx: Context)
    requires DistinctUsers(teamA + teamB) && SplitOf(teamA, teamB, ctx).Some?
    ensures Solve(TeamProblem(teamA)).Some? && Solve(TeamProblem(teamB)).Some?
    ensures SplitOf(teamA, teamB, ctx).value.metrics.offRolePenalty
         == (Solve(TeamProblem(teamA)).value.cost + Solve(TeamProblem(teamB)).value.cost) as real / 10.0
  {
    var a, b := SeatTeam(teamA).value.seats, SeatTeam(teamB).value.seats;
    TeamCost(teamA + teamB, teamA);
    TeamCost(teamA + teamB, teamB);
    OffRoleSumConcat(teamA + teamB, a, b);
    OffRoleTerm(teamA, teamB, a, b, ctx, Solve(TeamProblem(teamA)).value.cost + Solve(TeamProblem(teamB)).value.cost);
  }

  // ---- lane matchups ----

  ghost predicate InLaneOrder(seats: seq<Seat>) {
    |seats| == 5 && forall k :: 0 <= k < 5 ==> seats[k].role == LANES[k]
  }

  lemma SeatedInLaneOrder(team: seq<Player>)
    requires SeatTeam(team).Some?
    ensures InLaneOrder(SeatTeam(team).value.seats)
  {
    SolveIsOptimal(TeamProblem(team));
  }

  lemma {:induction false} PowerFound(seats: seq<Seat>, k: nat)
    requires k < |seats| && forall i :: 0 <= i < k ==> seats[i].role != seats[k].role
    ensures PowerAt(seats, seats[k].role) == seats[k].power
    decreases seats
  {
    if k == 0 {
    } else {
      assert seats[1..][k - 1] == seats[k];
      PowerFound(seats[1..], k - 1);
    }
  }

  ghost function SeatwiseGap(a: seq<Seat>, b: seq<Seat>): real {
    if a == [] || b == [] then 0.0 else Abs(a[0].power - b[0].power) + SeatwiseGap(a[1..], b[1..])
  }

  lemma {:induction false} LaneGapFrom(a: seq<Seat>, b: seq<Seat>, k: nat)
    requires InLaneOrder(a) && InLaneOrder(b) && k <= 5
    ensures LaneGap(a, b, LANES[k..]) == SeatwiseGap(a[k..], b[k..])
    decreases 5 - k
  {
    if k < 5 {
      LaneGapFrom(a, b, k + 1);
      LanesDiffer(k);
      PowerFound(a, k);
      PowerFound(b, k);
      assert LANES[k..][1..] == LANES[k + 1..] && a[k..][1..] == a[k + 1..] && b[k..][1..] == b[k + 1..];
    }
  }

  lemma LanesDiffer(k: nat)
    requires k < 5
    ensures forall i :: 0 <= i < k ==> LANES[i] != LANES[k]
  {
    LaneIndexInjective(LANES[k]);
  }

  lemma LaneGapOfSeats(a: seq<Seat>, b: seq<Seat>)
    requires InLaneOrder(a) && InLaneOrder(b)
    ensures LaneGap(a, b, LANES) == SeatwiseGap(a, b)
  {
    LaneGapFrom(a, b, 0);
    assert LANES[0..] == LANES && a[0..] == a && b[0..] == b;
  }

  /** The power differences of facing seats, as the metric rounds them. */
  ghost function FacingGap(a: seq<Seat>, b: seq<Seat>): real {
    ToFixed4(SeatwiseGap(a, b) / 20.0)
  }

  lemma SeatedLaneGap(teamA: seq<Player>, teamB: seq<Player>)
    requires SeatTeam(teamA).Some? && SeatTeam(teamB).Some?
    ensures LaneMatchupGap(SeatTeam(teamA).value.seats, SeatTeam(teamB).value.seats)
         == FacingGap(SeatTeam(teamA).value.seats, SeatTeam(teamB).value.seats)
  {
    SeatedInLaneOrder(teamA);
    SeatedInLaneOrder(teamB);
    LaneGapOfSeats(SeatTeam(teamA).value.seats, SeatTeam(teamB).value.seats);
  }

  /** The lane gap, which searches both teams for every lane, compares the facing seats of the split. */
  lemma LaneGapIsSeatwise(teamA: seq<Player>, teamB: seq<Player>, ctx: Context)
    requires SplitOf(teamA, teamB, ctx).Some?
    ensures var s := SplitOf(teamA, teamB, ctx).value; s.metrics.laneMatchupGap == FacingGap(s.teamA, s.teamB)
  {
    SeatedLaneGap(teamA, teamB);
  }

  // ---- repeated team-mates ----

  lemma SeatedUsersDistinct(team: seq<Player>)
    requires DistinctUsers(team) && SeatTeam(team).Some?
    ensures Distinct(UserIds(SeatTeam(team).value.seats))
    ensures forall u :: u in UserIds(SeatTeam(team).value.seats) ==> exists p :: p in team && p.userId == u
  {
    SolveIsOptimal(TeamProblem(team));
    AssignedUsersDistinct(team, Solve(TeamProblem(team)).value.assignment);
  }

  lemma AssignedUsersDistinct(team: seq<Player>, a: seq<nat>)
    requires DistinctUsers(team) && Solves(TeamProblem(team), a)
    ensures Distinct(UserIds(Seats(team, a)))
    ensures forall u :: u in UserIds(Seats(team, a)) ==> exists p :: p in team && p.userId == u
  {
    forall i, j | 0 <= i < j < 5 ensures team[a[i]].userId != team[a[j]].userId {
      assert a[i] != a[j];
    }
    forall u | u in UserIds(Seats(team, a)) ensures exists p :: p in team && p.userId == u {
      var k :| 0 <= k < 5 && UserIds(Seats(team, a))[k] == u;
      assert team[a[k]] in team;
    }
  }

  lemma EvaluatedRepeat(pa: seq<Player>, pb: seq<Player>, a: seq<Seat>, b: seq<Seat>, ctx: Context)
    requires a != [] && b != []
    ensures Evaluate(pa, pb, a, b, ctx.history, ctx.sqrt).repeatTeamPenalty
         == ToFixed4(RepeatPenalty(ctx.history, UserIds(a), UserIds(b)))
  {
  }

  lemma DirectlyComputed(ms: seq<RecentMatch>, users: set<string>, history: Option<History>,
                         teamA: seq<string>, teamB: seq<string>, direct: real)
    requires WellFormed(ms, users) && history == Some(HistoryOf(ms, users))
    requires Distinct(teamA) && Distinct(teamB) && Elements(teamA + teamB) <= users
    requires direct == DirectPenalty(ms, Pairs(teamA)) + DirectPenalty(ms, Pairs(teamB))
    ensures RepeatPenalty(history, teamA, teamB) == direct
  {
    RepeatPenaltyIsDirect(ms, users, teamA, teamB);
  }

  lemma EvaluatedDirectly(ms: seq<RecentMatch>, users: set<string>, pa: seq<Player>, pb: seq<Player>,
                          a: seq<Seat>, b: seq<Seat>, ctx: Context, direct: real)
    requires a != [] && b != [] && WellFormed(ms, users) && ctx.history == Some(HistoryOf(ms, users))
    requires Distinct(UserIds(a)) && Distinct(UserIds(b)) && Elements(UserIds(a) + UserIds(b)) <= users
    requires direct == DirectPenalty(ms, Pairs(UserIds(a))) + DirectPenalty(ms, Pairs(UserIds(b)))
    ensures Evaluate(pa, pb, a, b, ctx.history, ctx.sqrt).repeatTeamPenalty == ToFixed4(direct)
  {
    DirectlyComputed(ms, users, ctx.history, UserIds(a), UserIds(b), direct);
    EvaluatedRepeat(pa, pb, a, b, ctx);
  }

  ghost function DirectTotal(ms: seq<RecentMatch>, a: seq<Seat>, b: seq<Seat>): real {
    DirectPenalty(ms, Pairs(UserIds(a))) + DirectPenalty(ms, Pairs(UserIds(b)))
  }

  /** The repeat penalty of a split is the direct sum over the team-mates it seats together. */
  lemma RepeatPenaltyOfSplit(ms: seq<RecentMatch>, users: set<string>, teamA: seq<Player>, teamB: seq<Player>,
                             ctx: Context)
    requires WellFormed(ms, users) && ctx.history == Some(HistoryOf(ms, users))
    requires DistinctUsers(teamA) && DistinctUsers(teamB) && forall p :: p in teamA + teamB ==> p.userId in users
    requires SplitOf(teamA, teamB, ctx).Some?
    ensures var s := SplitOf(teamA, teamB, ctx).value;
      s.metrics.repeatTeamPenalty == ToFixed4(DirectTotal(ms, s.teamA, s.teamB))
  {
    var a, b := SeatTeam(teamA).value.seats, SeatTeam(teamB).value.seats;
    SeatedUsersDistinct(teamA);
    SeatedUsersDistinct(teamB);
    assert Elements(UserIds(a) + UserIds(b)) <= users;
    EvaluatedDirectly(ms, users, teamA, teamB, a, b, ctx, DirectTotal(ms, a, b));
  }

  // ---- preferences ----

  /** Everyone has the team-mates they want and none they avoid. */
  ghost predicate AllContent(team: seq<Player>, seated: set<string>) {
    forall p :: p in team ==>
      && (forall u :: u in p.sameTeamPreferences ==> u in seated)
      && (forall u :: u in p.avoidTeamPreferences ==> u !in seated)
  }

  lemma {:induction false} CountInBounds(ids: seq<string>, team: set<string>)
    ensures CountIn(ids, team) == 0 <==> forall u :: u in ids ==> u !in team
    ensures CountIn(ids, team) == |ids| <==> forall u :: u in ids ==> u in team
  {
    if ids == [] {
    } else {
      CountInBounds(ids[1..], team);
      assert ids[0] in ids;
      assert forall u :: u in ids <==> u == ids[0] || u in ids[1..];
    }
  }

  /** The preference term is never negative and zero exactly when everyone on the team is content. */
  lemma {:induction false} PreferencePenaltyZeroExactly(team: seq<Player>, seated: set<string>)
    ensures PreferencePenalty(team, seated) >= 0.0
    ensures PreferencePenalty(team, seated) == 0.0 <==> AllContent(team, seated)
  {
    if team == [] {
    } else {
      PreferencePenaltyZeroExactly(team[1..], seated);
      CountInBounds(team[0].sameTeamPreferences, seated);
      CountInBounds(team[0].avoidTeamPreferences, seated);
      assert team[0] in team;
      assert forall p :: p in team <==> p == team[0] || p in team[1..];
    }
  }

  lemma NobodyViolated(teamA: seq<Player>, teamB: seq<Player>, a: set<string>, b: set<string>)
    ensures ToFixed4(PreferencePenalty(teamA, a) + PreferencePenalty(teamB, b)) == 0.0 <==>
      AllContent(teamA, a) && AllContent(teamB, b)
  {
    PreferencePenaltyZeroExactly(teamA, a);
    PreferencePenaltyZeroExactly(teamB, b);
    PreferenceSteps(teamA, a);
    PreferenceSteps(teamB, b);
    RoundedZero(PreferencePenalty(teamA, a) + PreferencePenalty(teamB, b));
  }

  lemma EvaluatedPreference(pa: seq<Player>, pb: seq<Player>, a: seq<Seat>, b: seq<Seat>, ctx: Context)
    requires a != [] && b != []
    ensures Evaluate(pa, pb, a, b, ctx.history, ctx.sqrt).preferenceViolationPenalty == 0.0 <==>
      AllContent(pa, Elements(UserIds(a))) && AllContent(pb, Elements(UserIds(b)))
  {
    NobodyViolated(pa, pb, Elements(UserIds(a)), Elements(UserIds(b)));
  }

  /** The preference metric of a split vanishes exactly when all ten are content with their team. */
  lemma PreferenceMetricZeroExactly(teamA: seq<Player>, teamB: seq<Player>, ctx: Context)
    requires SplitOf(teamA, teamB, ctx).Some?
    ensures var s := SplitOf(teamA, teamB, ctx).value;
      s.metrics.preferenceViolationPenalty == 0.0 <==>
        AllContent(teamA, Elements(UserIds(s.teamA))) && AllContent(teamB, Elements(UserIds(s.teamB)))
  {
    EvaluatedPreference(teamA, teamB, SeatTeam(teamA).value.seats, SeatTeam(teamB).value.seats, ctx);
  }

  /** A violated preference costs at least 0.6, so rounding hides none. */
  lemma {:induction false} PreferenceSteps(team: seq<Player>, seated: set<string>)
    ensures PreferencePenalty(team, seated) == 0.0 || PreferencePenalty(team, seated) >= 0.6
  {
    if team == [] {
    } else {
      PreferenceSteps(team[1..], seated);
    }
  }

  lemma RoundedZero(x: real)
    requires x == 0.0 || x >= 0.6
    ensures ToFixed4(x) == 0.0 <==> x == 0.0
  {
    assert x >= 0.6 ==> Nearest(x * 10000.0) >= 1;
  }

  lemma {:induction false} PenaltyWithLast(team: seq<Player>, p: Player, seated: set<string>)
    ensures PreferencePenalty(team + [p], seated) == PreferencePenalty(team, seated) + PreferencePenalty([p], seated)
  {
    if team == [] {
      assert [] + [p] == [p];
    } else {
      assert (team + [p])[1..] == team[1..] + [p];
      PenaltyWithLast(team[1..], p, seated);
    }
  }

  lemma {:induction false} CountInAppend(ids: seq<string>, u: string, team: set<string>)
    ensures CountIn(ids + [u], team) == CountIn(ids, team) + if u in team then 1 else 0
  {
    if ids == [] {
      assert ([] + [u])[1..] == [];
    } else {
      assert (ids + [u])[1..] == ids[1..] + [u];
      CountInAppend(ids[1..], u, team);
    }
  }

  /** What a team's preferences cost, wish by wish: nothing without wishes, 0.6 for each wanted team-mate who is
      missing and 1.2 for each avoided one who is present. */
  lemma WishByWish(team: seq<Player>, p: Player, u: string, seated: set<string>)
    ensures PreferencePenalty([], seated) == 0.0
    ensures p.sameTeamPreferences == p.avoidTeamPreferences == [] ==>
      PreferencePenalty(team + [p], seated) == PreferencePenalty(team, seated)
    ensures PreferencePenalty(team + [p.(sameTeamPreferences := p.sameTeamPreferences + [u])], seated)
         == PreferencePenalty(team + [p], seated) + if u in seated then 0.0 else 0.6
    ensures PreferencePenalty(team + [p.(avoidTeamPreferences := p.avoidTeamPreferences + [u])], seated)
         == PreferencePenalty(team + [p], seated) + if u in seated then 1.2 else 0.0
  {
    PenaltyWithLast(team, p, seated);
    PenaltyWithLast(team, p.(sameTeamPreferences := p.sameTeamPreferences + [u]), seated);
    PenaltyWithLast(team, p.(avoidTeamPreferences := p.avoidTeamPreferences + [u]), seated);
    PenaltyOfOne(p, seated);
    PenaltyOfOne(p.(sameTeamPreferences := p.sameTeamPreferences + [u]), seated);
    PenaltyOfOne(p.(avoidTeamPreferences := p.avoidTeamPreferences + [u]), seated);
    CountInAppend(p.sameTeamPreferences, u, seated);
    CountInAppend(p.avoidTeamPreferences, u, seated);
  }

  lemma PenaltyOfOne(p: Player, seated: set<string>)
    ensures PreferencePenalty([p], seated)
         == (|p.sameTeamPreferences| - CountIn(p.sameTeamPreferences, seated)) as real * 0.6
            + CountIn(p.avoidTeamPreferences, seated) as real * 1.2
  {
    assert [p][1..] == [];
    assert PreferencePenalty([], seated) == 0.0;
  }

  ghost function WishPenalty(teamA: seq<Player>, a: seq<Seat>, teamB: seq<Player>, b: seq<Seat>): real {
    ToFixed4(PreferencePenalty(teamA, Elements(UserIds(a))) + PreferencePenalty(teamB, Elements(UserIds(b))))
  }

  /** Both teams' wishes together, each team judged by its own seats. */
  lemma PreferencesOfSplit(teamA: seq<Player>, teamB: seq<Player>, ctx: Context, s: Split)
    requires SplitOf(teamA, teamB, ctx) == Some(s)
    ensures s.metrics.preferenceViolationPenalty == WishPenalty(teamA, s.teamA, teamB, s.teamB)
  {
    WishesEvaluated(teamA, teamB, SeatTeam(teamA).value.seats, SeatTeam(teamB).value.seats, ctx);
  }

  lemma WishesEvaluated(pa: seq<Player>, pb: seq<Player>, a: seq<Seat>, b: seq<Seat>, ctx: Context)
    requires a != [] && b != []
    ensures Evaluate(pa, pb, a, b, ctx.history, ctx.sqrt).preferenceViolationPenalty == WishPenalty(pa, a, pb, b)
  {
  }

  // ---- team power and volatility ----

  ghost function FiveSum(a: seq<Seat>): real
    requires |a| == 5
  {
    a[0].power + a[1].power + a[2].power + a[3].power + a[4].power
  }

  ghost function FiveSquares(a: seq<Seat>): real
    requires |a| == 5
  {
    a[0].power * a[0].power + a[1].power * a[1].power + a[2].power * a[2].power + a[3].power * a[3].power
    + a[4].power * a[4].power
  }

  lemma SumOfFive(a: seq<Seat>)
    requires |a| == 5
    ensures PowerSum(a) == FiveSum(a)
  {
    assert a[3..][1..] == a[4..] && a[2..][1..] == a[3..] && a[1..][1..] == a[2..] && a[4..][1..] == [];
    assert PowerSum(a[4..]) == a[4].power;
    assert PowerSum(a[3..]) == a[3].power + PowerSum(a[4..]);
    assert PowerSum(a[2..]) == a[2].power + PowerSum(a[3..]);
    assert PowerSum(a[1..]) == a[1].power + PowerSum(a[2..]);
  }

  lemma Distribute(a: real, x: real, y: real)
    ensures a * (x - y) == a * x - a * y
  {
  }

  lemma Square(x: real, y: real)
    ensures (x - y) * (x - y) == x * x - 2.0 * (y * x) + y * y
  {
    Distribute(x - y, x, y);
    Distribute(x, x, y);
    Distribute(y, x, y);
  }

  lemma SumOfProducts(a: seq<Seat>, m: real)
    requires |a| == 5
    ensures m * a[0].power + m * a[1].power + m * a[2].power + m * a[3].power + m * a[4].power == m * FiveSum(a)
  {
  }

  lemma DeviationsOfFive(a: seq<Seat>, average: real)
    requires |a| == 5
    ensures SquaredDeviations(a, average)
         == FiveSquares(a) - 2.0 * (average * FiveSum(a)) + 5.0 * (average * average)
  {
    DeviationsListed(a, average);
    Square(a[0].power, average);
    Square(a[1].power, average);
    Square(a[2].power, average);
    Square(a[3].power, average);
    Square(a[4].power, average);
    SumOfProducts(a, average);
  }

  ghost function Deviation(seat: Seat, average: real): real {
    (seat.power - average) * (seat.power - average)
  }

  lemma DeviationsListed(a: seq<Seat>, average: real)
    requires |a| == 5
    ensures SquaredDeviations(a, average)
         == Deviation(a[0], average) + Deviation(a[1], average) + Deviation(a[2], average) + Deviation(a[3], average)
            + Deviation(a[4], average)
  {
    assert a[3..][1..] == a[4..] && a[2..][1..] == a[3..] && a[1..][1..] == a[2..] && a[4..][1..] == [];
    assert SquaredDeviations(a[4..], average) == Deviation(a[4], average);
    assert SquaredDeviations(a[3..], average) == Deviation(a[3], average) + SquaredDeviations(a[4..], average);
    assert SquaredDeviations(a[2..], average) == Deviation(a[2], average) + SquaredDeviations(a[3..], average);
    assert SquaredDeviations(a[1..], average) == Deviation(a[1], average) + SquaredDeviations(a[2..], average);
  }

  /** The variance of a team: the mean square less the square of the mean. */
  ghost function Variance(a: seq<Seat>): real
    requires |a| == 5
  {
    FiveSquares(a) / 5.0 - (FiveSum(a) / 5.0) * (FiveSum(a) / 5.0)
  }

  lemma DeviationIsRootOfVariance(a: seq<Seat>, sqrt: real -> real)
    requires |a| == 5
    ensures StandardDeviation(a, sqrt) == sqrt(Variance(a))
  {
    var mean := FiveSum(a) / 5.0;
    SumOfFive(a);
    DeviationsOfFive(a, mean);
    assert FiveSum(a) == 5.0 * mean;
    assert mean * FiveSum(a) == 5.0 * (mean * mean);
    assert SquaredDeviations(a, mean) / 5.0 == Variance(a);
  }

  /** A tenth of the difference between the sums of five powers. */
  ghost function FivePowerGap(a: seq<Seat>, b: seq<Seat>): real
    requires |a| == |b| == 5
  {
    ToFixed4(Abs(FiveSum(a) - FiveSum(b)) / 10.0)
  }

  /** A third of the difference between the roots of two variances. */
  ghost function FiveSpreadGap(a: seq<Seat>, b: seq<Seat>, sqrt: real -> real): real
    requires |a| == |b| == 5
  {
    ToFixed4(Abs(sqrt(Variance(a)) - sqrt(Variance(b))) / 3.0)
  }

  lemma GapsOfFive(a: seq<Seat>, b: seq<Seat>, sqrt: real -> real)
    requires |a| == |b| == 5
    ensures TeamPowerGap(a, b) == FivePowerGap(a, b) && VolatilityGap(a, b, sqrt) == FiveSpreadGap(a, b, sqrt)
  {
    SumOfFive(a);
    SumOfFive(b);
    DeviationIsRootOfVariance(a, sqrt);
    DeviationIsRootOfVariance(b, sqrt);
  }

  /** The team gap of an evaluated split compares the sums of the five powers, and its volatility term the roots of
      the two variances. */
  lemma TeamGapsOfSplit(teamA: seq<Player>, teamB: seq<Player>, ctx: Context, s: Split)
    requires SplitOf(teamA, teamB, ctx) == Some(s)
    ensures |s.teamA| == |s.teamB| == 5
    ensures s.metrics.teamPowerGap == FivePowerGap(s.teamA, s.teamB)
    ensures s.metrics.volatilityClusterPenalty == FiveSpreadGap(s.teamA, s.teamB, ctx.sqrt)
  {
    GapsShown(teamA, teamB, ctx, s);
    GapsOfFive(s.teamA, s.teamB, ctx.sqrt);
  }

  lemma GapsShown(teamA: seq<Player>, teamB: seq<Player>, ctx: Context, s: Split)
    requires SplitOf(teamA, teamB, ctx) == Some(s)
    ensures |s.teamA| == |s.teamB| == 5
    ensures s.metrics.teamPowerGap == TeamPowerGap(s.teamA, s.teamB)
    ensures s.metrics.volatilityClusterPenalty == VolatilityGap(s.teamA, s.teamB, ctx.sqrt)
  {
  }
}
