/** Role costs, the penalty terms of a split, and its weighted score. */
module TeamMetrics {
  import opened Domain
  import opened PairHistory
  import opened Prelude
  import opened RoleSearch

  datatype Player = Player(
    userId: string,
    primaryPosition: Option<Position>,
    secondaryPosition: Option<Position>,
    isFillAvailable: bool,
    overallPower: real,
    lanePower: map<Position, real>,
    sameTeamPreferences: seq<string>,
    avoidTeamPreferences: seq<string>,
    lockedTeamSide: Option<TeamSide>,
    lockedRole: Option<Position>)

  datatype Seat = Seat(userId: string, role: Position, power: real)

  datatype Metrics = Metrics(
    teamPowerGap: real, laneMatchupGap: real, offRolePenalty: real,
    repeatTeamPenalty: real, preferenceViolationPenalty: real, volatilityClusterPenalty: real)

  // ---- role costs ----

  /** How far a role is from what the player asked for. */
  function RoleDistance(p: Player, role: Position): (r: nat) {
    if p.primaryPosition == Some(role) then 0
    else if p.secondaryPosition == Some(role) then 8
    else if p.isFillAvailable then 12
    else 25
  }

  function RoleCost(p: Player, role: Position): (r: Cost) {
    if p.lockedRole.Some? && p.lockedRole.value != role then Infinite else Finite(RoleDistance(p, role))
  }

  function RolePower(p: Player, role: Position): (r: real) {
    if role in p.lanePower then p.lanePower[role] else p.overallPower
  }

  function TeamProblem(team: seq<Player>): (t: Problem) {
    Problem(5, |team|, (p: nat, r: nat) => if p < |team| && r < 5 then RoleCost(team[p], LANES[r]) else Infinite)
  }

  /** The role a lane lock names, as an index into the lanes; a lock on no lane gets an index of its own. */
  function LaneIndex(role: Position): (r: nat)
    ensures r < 5 ==> LANES[r] == role
    ensures r >= 5 ==> role !in LANES
  {
    match role
    case TOP => 0
    case JUNGLE => 1
    case MID => 2
    case ADC => 3
    case SUPPORT => 4
    case FILL => 5
  }

  function LaneLocks(team: seq<Player>): (r: seq<Option<nat>>) {
    seq(|team|, (i: nat) requires i < |team| =>
      if team[i].lockedRole.Some? then Some(LaneIndex(team[i].lockedRole.value)) else None)
  }

  /** A five-player team cannot be seated exactly when two players share a locked role or a locked
      role is not one of the five lanes. */
  lemma TeamUnassignableExactly(team: seq<Player>)
    requires |team| == 5
    ensures Solve(TeamProblem(team)).None? <==>
      || (exists i :: 0 <= i < 5 && team[i].lockedRole.Some? && team[i].lockedRole.value !in LANES)
      || (exists i, j :: 0 <= i < j < 5 && team[i].lockedRole.Some? && team[i].lockedRole == team[j].lockedRole)
  {
    var t, locks := TeamProblem(team), LaneLocks(team);
    forall p: nat, r: nat | p < t.players && r < t.roles
      ensures t.cost(p, r).Infinite? <==> locks[p].Some? && locks[p].value != r
    {
      LaneIndexInjective(LANES[r]);
    }
    UnassignableExactly(t, locks);
    LaneLocksCompatible(team);
  }

  lemma LaneLocksCompatible(team: seq<Player>)
    requires |team| == 5
    ensures !LocksCompatible(LaneLocks(team)) <==>
      || (exists i :: 0 <= i < 5 && team[i].lockedRole.Some? && team[i].lockedRole.value !in LANES)
      || (exists i, j :: 0 <= i < j < 5 && team[i].lockedRole.Some? && team[i].lockedRole == team[j].lockedRole)
  {
    var locks := LaneLocks(team);
    forall i, j | 0 <= i < 5 && 0 <= j < 5 && team[i].lockedRole.Some? && team[j].lockedRole.Some?
      ensures locks[i] == locks[j] <==> team[i].lockedRole == team[j].lockedRole
    {
      LaneIndexInjective(team[i].lockedRole.value);
    }
  }

  lemma LaneIndexInjective(role: Position)
    ensures forall other :: LaneIndex(other) == LaneIndex(role) <==> other == role
    ensures forall r :: 0 <= r < 5 && LANES[r] == role ==> LaneIndex(role) == r
  {
  }

  // ---- seats ----

  /** The roster of an assignment, in lane order. */
  function Seats(team: seq<Player>, a: seq<nat>): (r: seq<Seat>)
    requires |a| <= 5 && forall i :: 0 <= i < |a| ==> a[i] < |team|
  {
    seq(|a|, (i: nat) requires i < |a| => Seat(team[a[i]].userId, LANES[i], RolePower(team[a[i]], LANES[i])))
  }

  function UserIds(seats: seq<Seat>): (r: seq<string>) {
    seq(|seats|, (i: nat) requires i < |seats| => seats[i].userId)
  }

  // ---- penalty terms ----

  function PowerSum(seats: seq<Seat>): (r: real) {
    if seats == [] then 0.0 else seats[0].power + PowerSum(seats[1..])
  }

  function PowerAt(seats: seq<Seat>, role: Position): (r: real) {
    if seats == [] then 0.0 else if seats[0].role == role then seats[0].power else PowerAt(seats[1..], role)
  }

  function LaneGap(teamA: seq<Seat>, teamB: seq<Seat>, roles: seq<Position>): (r: real) {
    if roles == [] then 0.0
    else Abs(PowerAt(teamA, roles[0]) - PowerAt(teamB, roles[0])) + LaneGap(teamA, teamB, roles[1..])
  }

  /** The last player with that id, as a map built from the list would keep. */
  function FindPlayer(players: seq<Player>, userId: string): (r: Option<Player>) {
    if players == [] then None
    else
      var n := |players| - 1;
      if players[n].userId == userId then Some(players[n]) else FindPlayer(players[..n], userId)
  }

  /** Seats come from assignments of finite cost, where the distance is the cost (SeatedAtFiniteCost). */
  function OffRoleSum(players: seq<Player>, seats: seq<Seat>): (r: real) {
    if seats == [] then 0.0
    else
      var p := FindPlayer(players, seats[0].userId);
      (if p.Some? then RoleDistance(p.value, seats[0].role) as real / 10.0 else 0.0)
      + OffRoleSum(players, seats[1..])
  }

  function CountIn(ids: seq<string>, team: set<string>): (r: nat)
    ensures r <= |ids|
  {
    if ids == [] then 0 else (if ids[0] in team then 1 else 0) + CountIn(ids[1..], team)
  }

  function PreferencePenalty(team: seq<Player>, seated: set<string>): (r: real) {
    if team == [] then 0.0
    else
      var missing := |team[0].sameTeamPreferences| - CountIn(team[0].sameTeamPreferences, seated);
      var violated := CountIn(team[0].avoidTeamPreferences, seated);
      missing as real * 0.6 + violated as real * 1.2 + PreferencePenalty(team[1..], seated)
  }

  function SquaredDeviations(seats: seq<Seat>, average: real): (r: real) {
    if seats == [] then 0.0
    else (seats[0].power - average) * (seats[0].power - average) + SquaredDeviations(seats[1..], average)
  }

  function StandardDeviation(seats: seq<Seat>, sqrt: real -> real): (r: real)
    requires seats != []
  {
    var n := |seats| as real;
    sqrt(SquaredDeviations(seats, PowerSum(seats) / n) / n)
  }

  function TeamPowerGap(teamA: seq<Seat>, teamB: seq<Seat>): (r: real) {
    ToFixed4(Abs(PowerSum(teamA) - PowerSum(teamB)) / 10.0)
  }

  function LaneMatchupGap(teamA: seq<Seat>, teamB: seq<Seat>): (r: real) {
    ToFixed4(LaneGap(teamA, teamB, LANES) / 20.0)
  }

  function VolatilityGap(teamA: seq<Seat>, teamB: seq<Seat>, sqrt: real -> real): (r: real)
    requires teamA != [] && teamB != []
  {
    ToFixed4(Abs(StandardDeviation(teamA, sqrt) - StandardDeviation(teamB, sqrt)) / 3.0)
  }

  function Evaluate(playersA: seq<Player>, playersB: seq<Player>, teamA: seq<Seat>, teamB: seq<Seat>,
                    history: Option<History>, sqrt: real -> real): (m: Metrics)
    requires teamA != [] && teamB != []
  {
    Metrics(
      TeamPowerGap(teamA, teamB),
      LaneMatchupGap(teamA, teamB),
      ToFixed4(OffRoleSum(playersA + playersB, teamA + teamB)),
      ToFixed4(RepeatPenalty(history, UserIds(teamA), UserIds(teamB))),
      ToFixed4(PreferencePenalty(playersA, Elements(UserIds(teamA)))
               + PreferencePenalty(playersB, Elements(UserIds(teamB)))),
      VolatilityGap(teamA, teamB, sqrt))
  }

  method CalculateMetrics(playersA: seq<Player>, playersB: seq<Player>, teamA: seq<Seat>, teamB: seq<Seat>,
                          history: Option<History>, sqrt: real -> real) returns (m: Metrics)
    requires teamA != [] && teamB != []
    ensures m == Evaluate(playersA, playersB, teamA, teamB, history, sqrt)
  {
    var repeat := CalculateRepeatTeamPenalty(history, UserIds(teamA), UserIds(teamB));
    m := Metrics(
      ToFixed4(Abs(PowerSum(teamA) - PowerSum(teamB)) / 10.0),
      ToFixed4(LaneGap(teamA, teamB, LANES) / 20.0),
      ToFixed4(OffRoleSum(playersA + playersB, teamA + teamB)),
      ToFixed4(repeat.totalPenalty),
      ToFixed4(PreferencePenalty(playersA, set u | u in UserIds(teamA))
              + PreferencePenalty(playersB, set u | u in UserIds(teamB))),
      ToFixed4(Abs(StandardDeviation(teamA, sqrt) - StandardDeviation(teamB, sqrt)) / 3.0));
  }

  function Score(m: Metrics, mode: BalanceMode): (r: real) {
    var weighted := match mode
      case POSITION_FIRST =>
        m.teamPowerGap * 0.2 + m.laneMatchupGap * 0.15 + m.offRolePenalty * 0.35 + m.repeatTeamPenalty * 0.1
        + m.preferenceViolationPenalty * 0.1 + m.volatilityClusterPenalty * 0.1
      case SKILL_FIRST =>
        m.teamPowerGap * 0.45 + m.laneMatchupGap * 0.3 + m.offRolePenalty * 0.08 + m.repeatTeamPenalty * 0.07
        + m.preferenceViolationPenalty * 0.05 + m.volatilityClusterPenalty * 0.05
      case BALANCED =>
        m.teamPowerGap * 0.35 + m.laneMatchupGap * 0.25 + m.offRolePenalty * 0.15 + m.repeatTeamPenalty * 0.1
        + m.preferenceViolationPenalty * 0.08 + m.volatilityClusterPenalty * 0.07;
    ToFixed4(weighted)
  }

  // ---- swapping the teams changes no metric ----

  ghost predicate DistinctUsers(players: seq<Player>) {
    forall i, j :: 0 <= i < j < |players| ==> players[i].userId != players[j].userId
  }

  lemma {:induction false} FindPlayerFinds(players: seq<Player>, p: Player)
    requires DistinctUsers(players) && p in players
    ensures FindPlayer(players, p.userId) == Some(p)
  {
    var n := |players| - 1;
    var i :| 0 <= i < |players| && players[i] == p;
    if i < n {
      assert players[..n][i] == p;
      FindPlayerFinds(players[..n], p);
    }
  }

  lemma {:induction false} FindPlayerIn(players: seq<Player>, userId: string)
    ensures var r := FindPlayer(players, userId);
      if r.Some? then r.value in players && r.value.userId == userId
      else forall p :: p in players ==> p.userId != userId
  {
    if players == [] {
    } else {
      FindPlayerIn(players[..|players| - 1], userId);
    }
  }

  lemma SwappedDistinct(a: seq<Player>, b: seq<Player>)
    requires DistinctUsers(a + b)
    ensures DistinctUsers(b + a)
  {
    var s, t := a + b, b + a;
    forall i, j | 0 <= i < j < |t| ensures t[i].userId != t[j].userId {
      var x := if i < |b| then i + |a| else i - |b|;
      var y := if j < |b| then j + |a| else j - |b|;
      assert t[i] == s[x] && t[j] == s[y];
    }
  }

  lemma FindPlayerSwap(a: seq<Player>, b: seq<Player>, userId: string)
    requires DistinctUsers(a + b)
    ensures FindPlayer(a + b, userId) == FindPlayer(b + a, userId)
  {
    SwappedDistinct(a, b);
    FindPlayerIn(a + b, userId);
    FindPlayerIn(b + a, userId);
    var r := FindPlayer(a + b, userId);
    if r.Some? {
      assert r.value in b + a;
      FindPlayerFinds(b + a, r.value);
    } else {
      assert forall p :: p in b + a ==> p in a + b;
    }
  }

  lemma {:induction false} OffRoleSumSwapPlayers(a: seq<Player>, b: seq<Player>, seats: seq<Seat>)
    requires DistinctUsers(a + b)
    ensures OffRoleSum(a + b, seats) == OffRoleSum(b + a, seats)
  {
    if seats == [] {
    } else {
      FindPlayerSwap(a, b, seats[0].userId);
      OffRoleSumSwapPlayers(a, b, seats[1..]);
    }
  }

  lemma {:induction false} OffRoleSumConcat(players: seq<Player>, s: seq<Seat>, t: seq<Seat>)
    ensures OffRoleSum(players, s + t) == OffRoleSum(players, s) + OffRoleSum(players, t)
  {
    if s == [] {
      assert s + t == t;
    } else {
      assert (s + t)[1..] == s[1..] + t;
      OffRoleSumConcat(players, s[1..], t);
    }
  }

  lemma {:induction false} LaneGapSymmetric(s: seq<Seat>, t: seq<Seat>, roles: seq<Position>)
    ensures LaneGap(s, t, roles) == LaneGap(t, s, roles)
  {
    if roles == [] {
    } else {
      LaneGapSymmetric(s, t, roles[1..]);
    }
  }

  /** Every metric of a split is the same with the teams exchanged. */
  lemma EvaluateSymmetric(pa: seq<Player>, pb: seq<Player>, sa: seq<Seat>, sb: seq<Seat>,
                          history: Option<History>, sqrt: real -> real)
    requires sa != [] && sb != [] && DistinctUsers(pa + pb)
    ensures Evaluate(pa, pb, sa, sb, history, sqrt) == Evaluate(pb, pa, sb, sa, history, sqrt)
  {
    LaneGapSymmetric(sa, sb, LANES);
    OffRoleSumSymmetric(pa, pb, sa, sb);
    RepeatPenaltySymmetric(history, UserIds(sa), UserIds(sb));
  }

  lemma OffRoleSumSymmetric(pa: seq<Player>, pb: seq<Player>, sa: seq<Seat>, sb: seq<Seat>)
    requires DistinctUsers(pa + pb)
    ensures OffRoleSum(pa + pb, sa + sb) == OffRoleSum(pb + pa, sb + sa)
  {
    OffRoleSumSwapPlayers(pa, pb, sa + sb);
    OffRoleSumConcat(pb + pa, sa, sb);
    OffRoleSumConcat(pb + pa, sb, sa);
  }

  lemma RepeatPenaltySymmetric(history: Option<History>, a: seq<string>, b: seq<string>)
    ensures RepeatPenalty(history, a, b) == RepeatPenalty(history, b, a)
  {
    assert Elements(a + b) == Elements(b + a);
  }

  /** The off-role term charges exactly the cost the role search minimised. */
  lemma SeatedAtFiniteCost(team: seq<Player>, a: seq<nat>, r: nat)
    requires Solves(TeamProblem(team), a) && r < 5
    ensures RoleCost(team[a[r]], LANES[r]) == Finite(RoleDistance(team[a[r]], LANES[r]))
  {
    assert TeamProblem(team).cost(a[r], r).Finite?;
  }
}
