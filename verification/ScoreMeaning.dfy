/** What a score weighs, and what its optimality says about the metrics and the ties of the chosen splits. */
module ScoreMeaning {
  import opened Balancer
  import opened BalancerOptimality
  import opened Combinations
  import opened Domain
  import opened LockLoss
  import opened MetricMeaning
  import opened PairHistory
  import opened Prelude
  import opened Rounding
  import opened TeamMetrics

  // ---- weights ----

  ghost predicate NonNegative(m: Metrics) {
    && m.teamPowerGap >= 0.0 && m.laneMatchupGap >= 0.0 && m.offRolePenalty >= 0.0
    && m.repeatTeamPenalty >= 0.0 && m.preferenceViolationPenalty >= 0.0 && m.volatilityClusterPenalty >= 0.0
  }

  /** m is at least as good as n in all six metrics. */
  ghost predicate NoWorse(m: Metrics, n: Metrics) {
    && m.teamPowerGap <= n.teamPowerGap && m.laneMatchupGap <= n.laneMatchupGap
    && m.offRolePenalty <= n.offRolePenalty && m.repeatTeamPenalty <= n.repeatTeamPenalty
    && m.preferenceViolationPenalty <= n.preferenceViolationPenalty
    && m.volatilityClusterPenalty <= n.volatilityClusterPenalty
  }

  lemma FixedMonotone(x: real, y: real)
    requires x <= y
    ensures ToFixed4(x) <= ToFixed4(y)
  {
    NearestMonotone(x * 10000.0, y * 10000.0);
  }

  /** A whole number of ten-thousandths. */
  ghost predicate Whole(x: real) {
    x * 10000.0 == (x * 10000.0).Floor as real
  }

  /** Rounding commutes with adding whole ten-thousandths. */
  lemma FixedShift(x: real, d: real)
    requires x >= 0.0 && d >= 0.0 && Whole(d)
    ensures ToFixed4(x + d) == ToFixed4(x) + d
  {
    var y, k := x * 10000.0, (d * 10000.0).Floor;
    assert (x + d) * 10000.0 == y + k as real;
    assert (y + k as real + 0.5).Floor == (y + 0.5).Floor + k;
  }

  /** What one unit of each metric costs in a mode. */
  ghost function UnitCosts(mode: BalanceMode): Metrics {
    match mode
    case BALANCED => Metrics(0.35, 0.25, 0.15, 0.1, 0.08, 0.07)
    case POSITION_FIRST => Metrics(0.2, 0.15, 0.35, 0.1, 0.1, 0.1)
    case SKILL_FIRST => Metrics(0.45, 0.3, 0.08, 0.07, 0.05, 0.05)
  }

  ghost function Dot(m: Metrics, costs: Metrics): real {
    m.teamPowerGap * costs.teamPowerGap + m.laneMatchupGap * costs.laneMatchupGap
    + m.offRolePenalty * costs.offRolePenalty + m.repeatTeamPenalty * costs.repeatTeamPenalty
    + m.preferenceViolationPenalty * costs.preferenceViolationPenalty
    + m.volatilityClusterPenalty * costs.volatilityClusterPenalty
  }

  lemma ScoreIsDot(m: Metrics, mode: BalanceMode)
    ensures Score(m, mode) == ToFixed4(Dot(m, UnitCosts(mode)))
  {
  }

  lemma DotOfZeros(costs: Metrics)
    ensures Dot(Metrics(0.0, 0.0, 0.0, 0.0, 0.0, 0.0), costs) == 0.0
  {
  }

  lemma FixedZero()
    ensures ToFixed4(0.0) == 0.0
  {
    NearestWhole(0);
  }

  /** Nothing to object to costs nothing, in every mode. */
  lemma PerfectScoresZero(mode: BalanceMode)
    ensures Score(Metrics(0.0, 0.0, 0.0, 0.0, 0.0, 0.0), mode) == 0.0
  {
    ScoreIsDot(Metrics(0.0, 0.0, 0.0, 0.0, 0.0, 0.0), mode);
    DotOfZeros(UnitCosts(mode));
    FixedZero();
  }

  /** One more unit of a metric, alone, raises the score by exactly its cost. */
  lemma OneUnitCosts(m: Metrics, mode: BalanceMode)
    requires NonNegative(m)
    ensures var s, c := Score(m, mode), UnitCosts(mode);
      && Score(m.(teamPowerGap := m.teamPowerGap + 1.0), mode) == s + c.teamPowerGap
      && Score(m.(laneMatchupGap := m.laneMatchupGap + 1.0), mode) == s + c.laneMatchupGap
      && Score(m.(offRolePenalty := m.offRolePenalty + 1.0), mode) == s + c.offRolePenalty
      && Score(m.(repeatTeamPenalty := m.repeatTeamPenalty + 1.0), mode) == s + c.repeatTeamPenalty
      && Score(m.(preferenceViolationPenalty := m.preferenceViolationPenalty + 1.0), mode)
           == s + c.preferenceViolationPenalty
      && Score(m.(volatilityClusterPenalty := m.volatilityClusterPenalty + 1.0), mode)
           == s + c.volatilityClusterPenalty
  {
    UnitDots(m, UnitCosts(mode));
    CostsAreWhole(mode);
    UnitRaises(m, m.(teamPowerGap := m.teamPowerGap + 1.0), UnitCosts(mode).teamPowerGap, mode);
    UnitRaises(m, m.(laneMatchupGap := m.laneMatchupGap + 1.0), UnitCosts(mode).laneMatchupGap, mode);
    UnitRaises(m, m.(offRolePenalty := m.offRolePenalty + 1.0), UnitCosts(mode).offRolePenalty, mode);
    UnitRaises(m, m.(repeatTeamPenalty := m.repeatTeamPenalty + 1.0), UnitCosts(mode).repeatTeamPenalty, mode);
    UnitRaises(m, m.(preferenceViolationPenalty := m.preferenceViolationPenalty + 1.0),
               UnitCosts(mode).preferenceViolationPenalty, mode);
    UnitRaises(m, m.(volatilityClusterPenalty := m.volatilityClusterPenalty + 1.0),
               UnitCosts(mode).volatilityClusterPenalty, mode);
  }

  lemma UnitDots(m: Metrics, c: Metrics)
    ensures Dot(m.(teamPowerGap := m.teamPowerGap + 1.0), c) == Dot(m, c) + c.teamPowerGap
    ensures Dot(m.(laneMatchupGap := m.laneMatchupGap + 1.0), c) == Dot(m, c) + c.laneMatchupGap
    ensures Dot(m.(offRolePenalty := m.offRolePenalty + 1.0), c) == Dot(m, c) + c.offRolePenalty
    ensures Dot(m.(repeatTeamPenalty := m.repeatTeamPenalty + 1.0), c) == Dot(m, c) + c.repeatTeamPenalty
    ensures Dot(m.(preferenceViolationPenalty := m.preferenceViolationPenalty + 1.0), c)
         == Dot(m, c) + c.preferenceViolationPenalty
    ensures Dot(m.(volatilityClusterPenalty := m.volatilityClusterPenalty + 1.0), c)
         == Dot(m, c) + c.volatilityClusterPenalty
  {
  }

  lemma CostsAreWhole(mode: BalanceMode)
    ensures var c := UnitCosts(mode);
      && Whole(c.teamPowerGap) && Whole(c.laneMatchupGap) && Whole(c.offRolePenalty)
      && Whole(c.repeatTeamPenalty) && Whole(c.preferenceViolationPenalty) && Whole(c.volatilityClusterPenalty)
  {
  }

  lemma UnitRaises(m: Metrics, n: Metrics, cost: real, mode: BalanceMode)
    requires NonNegative(m) && Dot(n, UnitCosts(mode)) == Dot(m, UnitCosts(mode)) + cost
    requires cost >= 0.0 && Whole(cost)
    ensures Score(n, mode) == Score(m, mode) + cost
  {
    ScoreIsDot(m, mode);
    ScoreIsDot(n, mode);
    DotNonNegative(m, mode);
    FixedShift(Dot(m, UnitCosts(mode)), cost);
  }

  lemma DotNonNegative(m: Metrics, mode: BalanceMode)
    requires NonNegative(m)
    ensures Dot(m, UnitCosts(mode)) >= 0.0
  {
  }

  /** No mode rewards a larger metric. */
  lemma ScoreNeverFalls(m: Metrics, n: Metrics, mode: BalanceMode)
    requires NoWorse(m, n)
    ensures Score(m, mode) <= Score(n, mode)
  {
    ScoreIsDot(m, mode);
    ScoreIsDot(n, mode);
    FixedMonotone(Dot(m, UnitCosts(mode)), Dot(n, UnitCosts(mode)));
  }

  // ---- the chosen splits ----

  /** n is at least as bad as m in all six metrics, and in one of them worse by 0.002, which no rounding hides. */
  ghost predicate ClearlyWorse(n: Metrics, m: Metrics) {
    && NoWorse(m, n)
    && (|| n.teamPowerGap >= m.teamPowerGap + 0.002 || n.laneMatchupGap >= m.laneMatchupGap + 0.002
        || n.offRolePenalty >= m.offRolePenalty + 0.002 || n.repeatTeamPenalty >= m.repeatTeamPenalty + 0.002
        || n.preferenceViolationPenalty >= m.preferenceViolationPenalty + 0.002
        || n.volatilityClusterPenalty >= m.volatilityClusterPenalty + 0.002)
  }

  lemma ClearlyWorseScoresHigher(n: Metrics, m: Metrics, mode: BalanceMode)
    requires NonNegative(m) && ClearlyWorse(n, m)
    ensures Score(n, mode) > Score(m, mode)
  {
    ScoreIsDot(m, mode);
    ScoreIsDot(n, mode);
    DotNonNegative(m, mode);
    DotRises(n, m, mode);
    FixedMonotone(Dot(m, UnitCosts(mode)) + 0.0001, Dot(n, UnitCosts(mode)));
    FixedShift(Dot(m, UnitCosts(mode)), 0.0001);
  }

  lemma DotRises(n: Metrics, m: Metrics, mode: BalanceMode)
    requires ClearlyWorse(n, m)
    ensures Dot(n, UnitCosts(mode)) >= Dot(m, UnitCosts(mode)) + 0.0001
  {
  }

  lemma FixedNonNegative(x: real)
    requires x >= 0.0
    ensures ToFixed4(x) >= 0.0
  {
  }

  lemma {:induction false} LaneGapNonNegative(a: seq<Seat>, b: seq<Seat>, roles: seq<Position>)
    ensures LaneGap(a, b, roles) >= 0.0
  {
    if roles == [] {
    } else {
      LaneGapNonNegative(a, b, roles[1..]);
    }
  }

  lemma {:induction false} OffRoleSumNonNegative(players: seq<Player>, seats: seq<Seat>)
    ensures OffRoleSum(players, seats) >= 0.0
  {
    if seats == [] {
    } else {
      OffRoleSumNonNegative(players, seats[1..]);
    }
  }

  lemma {:induction false} PenaltySumNonNegative(h: History, users: set<string>, pairs: seq<(string, string)>)
    ensures PenaltySum(h, users, pairs) >= 0.0
  {
    if pairs == [] {
    } else {
      PenaltySumNonNegative(h, users, pairs[1..]);
    }
  }

  lemma RepeatPenaltyNonNegative(history: Option<History>, a: seq<string>, b: seq<string>)
    ensures RepeatPenalty(history, a, b) >= 0.0
  {
    if history.Some? {
      PenaltySumNonNegative(history.value, Elements(a + b), Pairs(a));
      PenaltySumNonNegative(history.value, Elements(a + b), Pairs(b));
    }
  }

  /** No metric of an evaluated split is negative. */
  lemma EvaluatedNonNegative(pa: seq<Player>, pb: seq<Player>, a: seq<Seat>, b: seq<Seat>, ctx: Context)
    requires a != [] && b != []
    ensures NonNegative(Evaluate(pa, pb, a, b, ctx.history, ctx.sqrt))
  {
    LaneGapNonNegative(a, b, LANES);
    OffRoleSumNonNegative(pa + pb, a + b);
    RepeatPenaltyNonNegative(ctx.history, UserIds(a), UserIds(b));
    PreferencePenaltyZeroExactly(pa, Elements(UserIds(a)));
    PreferencePenaltyZeroExactly(pb, Elements(UserIds(b)));
    FixedNonNegative(OffRoleSum(pa + pb, a + b));
    FixedNonNegative(RepeatPenalty(ctx.history, UserIds(a), UserIds(b)));
    FixedNonNegative(PreferencePenalty(pa, Elements(UserIds(a))) + PreferencePenalty(pb, Elements(UserIds(b))));
    GapsNonNegative(a, b, ctx.sqrt);
  }

  lemma GapsNonNegative(a: seq<Seat>, b: seq<Seat>, sqrt: real -> real)
    requires a != [] && b != []
    ensures TeamPowerGap(a, b) >= 0.0 && LaneMatchupGap(a, b) >= 0.0 && VolatilityGap(a, b, sqrt) >= 0.0
  {
    LaneGapNonNegative(a, b, LANES);
    FixedNonNegative(Abs(PowerSum(a) - PowerSum(b)) / 10.0);
    FixedNonNegative(LaneGap(a, b, LANES) / 20.0);
    FixedNonNegative(Abs(StandardDeviation(a, sqrt) - StandardDeviation(b, sqrt)) / 3.0);
  }

  lemma SideNonNegative(players: seq<Player>, s: set<nat>, ctx: Context)
    requires |players| == 2 * TEAM_SIZE && SideOf(players, s, ctx).Some?
    ensures NonNegative(SideOf(players, s, ctx).value.metrics)
  {
    var c := Ascending(s, 0, |players|);
    SplitNonNegative(Team(players, c), Team(players, Others(c, |players|)), ctx);
  }

  lemma SplitNonNegative(teamA: seq<Player>, teamB: seq<Player>, ctx: Context)
    requires SplitOf(teamA, teamB, ctx).Some?
    ensures NonNegative(SplitOf(teamA, teamB, ctx).value.metrics)
  {
    EvaluatedNonNegative(teamA, teamB, SeatTeam(teamA).value.seats, SeatTeam(teamB).value.seats, ctx);
  }

  /** No mode's choice is clearly worse than a split that is evaluable as listed and whose key was not used. */
  lemma ChoiceNeverClearlyWorse(players: seq<Player>, ctx: Context, q: Request, j: nat, s: set<nat>)
    requires |players| == 2 * TEAM_SIZE && DistinctUsers(players) && q.excludedIds == [] && j < 3
    requires HalfSplit(s, |players|) && SideOf(players, s, ctx).Some?
    requires SideOf(players, Listed(s, |players|), ctx).Some?
    ensures var ps := PicksOf(players, ctx, q);
      var key := CombinationKey(SideOf(players, Listed(s, |players|), ctx).value.teamA);
      && ps[j].Some?
      && (key !in UsedBefore(Elements(q.excludedKeys), ps[..j]) ==>
            !ClearlyWorse(ps[j].value.split.metrics, SideOf(players, s, ctx).value.metrics))
  {
    ChoiceBeats(players, ctx, q, j, s);
    SideNonNegative(players, s, ctx);
    var chosen, other := PicksOf(players, ctx, q)[j].value.split.metrics, SideOf(players, s, ctx).value.metrics;
    if ClearlyWorse(chosen, other) {
      ClearlyWorseScoresHigher(chosen, other, MODES[j]);
    }
  }

  /** Where no split is lost, the BALANCED candidate is not clearly worse than any evaluable split. */
  lemma BalancedNeverClearlyWorse(players: seq<Player>, ctx: Context, seed: Option<string>, s: set<nat>)
    requires |players| == 2 * TEAM_SIZE && DistinctUsers(players) && !LosesSplits(players)
    requires HalfSplit(s, |players|) && SideOf(players, s, ctx).Some?
    ensures var r := Present(PicksOf(players, ctx, Request([], [], seed)));
      && |r| == 3 && r[0].mode == BalanceMode.BALANCED
      && !ClearlyWorse(r[0].split.metrics, SideOf(players, s, ctx).value.metrics)
  {
    BalancedIsOptimalUnlessLost(players, ctx, seed, s);
    SideNonNegative(players, s, ctx);
    var r := Present(PicksOf(players, ctx, Request([], [], seed)));
    if ClearlyWorse(r[0].split.metrics, SideOf(players, s, ctx).value.metrics) {
      ClearlyWorseScoresHigher(r[0].split.metrics, SideOf(players, s, ctx).value.metrics, BalanceMode.BALANCED);
    }
  }

  // ---- ties ----

  /** A string read as a number to base 31. */
  ghost function Base31(s: string): nat {
    if s == [] then 0 else Base31(s[..|s| - 1]) * 31 + s[|s| - 1] as nat
  }

  lemma {:induction false} HashSnoc(s: string, c: char, hash: nat)
    requires hash < 1000003
    ensures HashFrom(s + [c], hash) == (HashFrom(s, hash) * 31 + c as nat) % 1000003
    decreases s
  {
    if s == [] {
      assert (s + [c])[1..] == [];
    } else {
      assert (s + [c])[1..] == s[1..] + [c];
      HashSnoc(s[1..], c, (hash * 31 + s[0] as nat) % 1000003);
    }
  }

  lemma ReducedStep(x: nat, c: nat)
    ensures (x % 1000003 * 31 + c) % 1000003 == (x * 31 + c) % 1000003
  {
    var q := x / 1000003;
    assert x * 31 + c == 1000003 * (q * 31) + (x % 1000003 * 31 + c);
    AddMultiple(x % 1000003 * 31 + c, q * 31);
  }

  lemma {:induction false} AddMultiple(y: nat, k: nat)
    ensures (1000003 * k + y) % 1000003 == y % 1000003
  {
    if k == 0 {
    } else {
      AddMultiple(y, k - 1);
      assert 1000003 * k + y == 1000003 * (k - 1) + y + 1000003;
    }
  }

  /** The tie-break hash is the seed string, read to base 31, modulo 1000003. */
  lemma {:induction false} HashIsBase31(s: string)
    ensures HashFrom(s, 0) == Base31(s) % 1000003
  {
    if s == [] {
    } else {
      var n := |s| - 1;
      HashIsBase31(s[..n]);
      assert s == s[..n] + [s[n]];
      HashSnoc(s[..n], s[n], 0);
      ReducedStep(Base31(s[..n]), s[n] as nat);
    }
  }

  /** The string a tie is broken by: mode, seed and key. */
  ghost function TieText(j: nat, seed: Option<string>, key: string): string {
    (if j == 0 then "BALANCED:" else if j == 1 then "POSITION_FIRST:" else "SKILL_FIRST:")
    + (if seed.Some? then seed.value else "default") + ":" + key
  }

  lemma TieTextHashed(j: nat, seed: Option<string>, key: string)
    requires j < 3
    ensures HashFrom(TiebreakSeed(key, MODES[j], seed), 0) == Base31(TieText(j, seed, key)) % 1000003
  {
    var name := ModeName(MODES[j]);
    var text := if seed.Some? then seed.value else "default";
    assert name + ":" + text + ":" + key == TieText(j, seed, key);
    HashIsBase31(TieText(j, seed, key));
  }

  /** Among equal scores the choice of a mode has the least hash of the unused offers. */
  lemma TiesGoToLeastHash(players: seq<Player>, ctx: Context, q: Request, j: nat, s: set<nat>)
    requires |players| == 2 * TEAM_SIZE && j < 3 && Offered(players, ctx, q, s, j)
    ensures var ps := PicksOf(players, ctx, q);
      var other := SideOf(players, s, ctx).value;
      && ps[j].Some?
      && (CombinationKey(other.teamA) !in UsedBefore(Elements(q.excludedKeys), ps[..j]) ==>
            || ps[j].value.score < Score(other.metrics, MODES[j])
            || (ps[j].value.score == Score(other.metrics, MODES[j])
                && Base31(TieText(j, q.seed, ps[j].value.combinationKey)) % 1000003
                     <= Base31(TieText(j, q.seed, CombinationKey(other.teamA))) % 1000003))
  {
    var splits, ps, other := SplitsOf(players, ctx), PicksOf(players, ctx, q), SideOf(players, s, ctx).value;
    OfferedIsAnswered(players, ctx, q, s, j);
    SplitsExactly(players, ctx, other);
    OffersMembers(splits, MODES[j], j + 1, q.excludedIds, CandidateOf(other, MODES[j], j + 1));
    PicksAreGood(splits, q.excludedIds, Elements(q.excludedKeys), q.seed, j);
    if CombinationKey(other.teamA) !in UsedBefore(Elements(q.excludedKeys), ps[..j]) {
      assert NotAfter(ps[j].value, CandidateOf(other, MODES[j], j + 1), MODES[j], q.seed);
      TieTextHashed(j, q.seed, ps[j].value.combinationKey);
      TieTextHashed(j, q.seed, CombinationKey(other.teamA));
    }
  }

  /** The three candidates of an answer without excluded ids, by mode and number. */
  lemma ModesInOrder(players: seq<Player>, ctx: Context, q: Request)
    requires |players| == 2 * TEAM_SIZE && q.excludedIds == []
    ensures var r := Present(PicksOf(players, ctx, q));
      r != [] ==>
        && |r| == 3
        && r[0].mode == BalanceMode.BALANCED && r[1].mode == POSITION_FIRST && r[2].mode == SKILL_FIRST
        && r[0].candidateNo == 1 && r[1].candidateNo == 2 && r[2].candidateNo == 3
  {
    AllOrNothing(players, ctx, q);
  }
}
