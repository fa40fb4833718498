/** Where a team's players end up: the four costs of a seat, and what the cheapest assignment grants. */
module SeatingMeaning {
  import opened Balancer
  import opened Domain
  import opened MetricMeaning
  import opened Prelude
  import opened RoleSearch
  import opened TeamMetrics

  // ---- the cost of one seat ----

  datatype SeatKind = Primary | Secondary | Filled | Unwanted

  /** What the lane of a seat is to its player. */
  ghost function KindOf(p: Player, lane: Position): SeatKind {
    if p.primaryPosition == Some(lane) then Primary
    else if p.secondaryPosition == Some(lane) then Secondary
    else if p.isFillAvailable then Filled
    else Unwanted
  }

  /** A seat costs 0, 8, 12 or 25 as its lane is the player's primary one, the secondary one, any lane for a player
      who fills, or unwanted; it is forbidden exactly by a lock on another role. */
  lemma SeatCosts(p: Player, lane: Position)
    ensures RoleCost(p, lane) == Infinite <==> p.lockedRole.Some? && p.lockedRole.value != lane
    ensures RoleDistance(p, lane) == 0 <==> KindOf(p, lane) == Primary
    ensures RoleDistance(p, lane) == 8 <==> KindOf(p, lane) == Secondary
    ensures RoleDistance(p, lane) == 12 <==> KindOf(p, lane) == Filled
    ensures RoleDistance(p, lane) == 25 <==> KindOf(p, lane) == Unwanted
  {
  }

  // ---- the cost of a seating ----

  /** Whether the seat on lane number r is of the given kind. */
  ghost function IsKind(team: seq<Player>, a: seq<nat>, kind: SeatKind): nat -> bool {
    (r: nat) => r < 5 && r < |a| && a[r] < |team| && KindOf(team[a[r]], LANES[r]) == kind
  }

  /** The number of seats of one kind among the first n of an assignment. */
  ghost function SeatsOfKind(team: seq<Player>, a: seq<nat>, n: nat, kind: SeatKind): nat {
    |Where(n, IsKind(team, a, kind))|
  }

  lemma LastSeatAdds(team: seq<Player>, a: seq<nat>, n: nat)
    requires Solves(TeamProblem(team), a) && n < 5
    ensures Total(TeamProblem(team), a[..n + 1])
         == Total(TeamProblem(team), a[..n]) + RoleDistance(team[a[n]], LANES[n])
    ensures OffRoles(TeamProblem(team), a[..n + 1])
         == OffRoles(TeamProblem(team), a[..n]) + if RoleDistance(team[a[n]], LANES[n]) >= 12 then 1 else 0
  {
    SeatedAtFiniteCost(team, a, n);
    assert a[..n + 1][..n] == a[..n];
  }

  /** Cost and off-role count of an assignment, from the seats of each kind. */
  lemma {:induction false} SeatingCosts(team: seq<Player>, a: seq<nat>, n: nat)
    requires Solves(TeamProblem(team), a) && n <= 5
    ensures Total(TeamProblem(team), a[..n])
         == 8 * SeatsOfKind(team, a, n, Secondary) + 12 * SeatsOfKind(team, a, n, Filled)
              + 25 * SeatsOfKind(team, a, n, Unwanted)
    ensures OffRoles(TeamProblem(team), a[..n])
         == SeatsOfKind(team, a, n, Filled) + SeatsOfKind(team, a, n, Unwanted)
  {
    if n == 0 {
    } else {
      SeatingCosts(team, a, n - 1);
      LastSeatAdds(team, a, n - 1);
      WhereGrows(n - 1, IsKind(team, a, Secondary));
      WhereGrows(n - 1, IsKind(team, a, Filled));
      WhereGrows(n - 1, IsKind(team, a, Unwanted));
      SeatCosts(team[a[n - 1]], LANES[n - 1]);
    }
  }

  /** 8 for each seat on a secondary lane, 12 for each filled one, 25 for each unwanted one. */
  ghost function SeatingCost(team: seq<Player>, a: seq<nat>): nat {
    8 * SeatsOfKind(team, a, 5, Secondary) + 12 * SeatsOfKind(team, a, 5, Filled)
    + 25 * SeatsOfKind(team, a, 5, Unwanted)
  }

  /** The cost at which the search seats a team. */
  ghost function SearchCost(team: seq<Player>): nat
    requires SeatTeam(team).Some?
  {
    Solve(TeamProblem(team)).value.cost
  }

  /** A seating has an assignment behind it, at the cost the search found; its off-role count is the number of seats
      on neither the primary nor the secondary lane of the player. */
  lemma SeatingHasCost(team: seq<Player>) returns (a: seq<nat>)
    requires SeatTeam(team).Some?
    ensures Solves(TeamProblem(team), a) && SeatTeam(team).value.seats == Seats(team, a)
    ensures SeatTeam(team).value.offRoles == SeatsOfKind(team, a, 5, Filled) + SeatsOfKind(team, a, 5, Unwanted)
    ensures SearchCost(team) == SeatingCost(team, a)
  {
    SolveIsOptimal(TeamProblem(team));
    a := Solve(TeamProblem(team)).value.assignment;
    SeatingCosts(team, a, 5);
    assert a[..5] == a;
  }

  /** No assignment the locks allow costs less. */
  lemma SeatingIsCheapest(team: seq<Player>, b: seq<nat>) returns (a: seq<nat>)
    requires Solves(TeamProblem(team), b)
    ensures SeatTeam(team).Some? && Solves(TeamProblem(team), a)
    ensures SeatTeam(team).value.seats == Seats(team, a) && SeatingCost(team, a) <= SeatingCost(team, b)
    ensures SeatTeam(team).value.offRoles == SeatsOfKind(team, a, 5, Filled) + SeatsOfKind(team, a, 5, Unwanted)
  {
    SearchIsCheapest(team, b);
    a := SeatingHasCost(team);
    SeatingCosts(team, b, 5);
    assert b[..5] == b;
  }

  lemma SearchIsCheapest(team: seq<Player>, b: seq<nat>)
    requires Solves(TeamProblem(team), b)
    ensures SeatTeam(team).Some? && SearchCost(team) <= Total(TeamProblem(team), b)
  {
    SolveIsOptimal(TeamProblem(team));
  }

  ghost predicate AllOnPrimary(team: seq<Player>, a: seq<nat>) {
    |a| == 5 && forall r: nat :: r < 5 ==> a[r] < |team| && team[a[r]].primaryPosition == Some(LANES[r])
  }

  lemma FreeOnPrimary(team: seq<Player>, a: seq<nat>)
    requires Solves(TeamProblem(team), a)
    ensures SeatingCost(team, a) == 0 <==> AllOnPrimary(team, a)
  {
    if AllOnPrimary(team, a) {
      assert Where(5, IsKind(team, a, Secondary)) == {};
      assert Where(5, IsKind(team, a, Filled)) == {};
      assert Where(5, IsKind(team, a, Unwanted)) == {};
    } else {
      var r: nat :| r < 5 && team[a[r]].primaryPosition != Some(LANES[r]);
      assert r in Where(5, IsKind(team, a, KindOf(team[a[r]], LANES[r])));
    }
  }

  /** If the locks leave some lineup with everyone on the primary lane, the team is seated that way, with nobody
      off role. */
  lemma EveryoneGetsPrimary(team: seq<Player>, b: seq<nat>) returns (a: seq<nat>)
    requires Solves(TeamProblem(team), b) && AllOnPrimary(team, b)
    ensures SeatTeam(team).Some? && SeatTeam(team).value.offRoles == 0
    ensures AllOnPrimary(team, a) && SeatTeam(team).value.seats == Seats(team, a)
  {
    a := SeatingIsCheapest(team, b);
    FreeOnPrimary(team, b);
    FreeOnPrimary(team, a);
  }

  // ---- the off-role numbers of a split ----

  ghost function OffRoleSeats(team: seq<Player>, a: seq<nat>): nat {
    SeatsOfKind(team, a, 5, Filled) + SeatsOfKind(team, a, 5, Unwanted)
  }

  /** The seats, off-role penalty and off-role count of a split of two teams assigned like this. */
  ghost predicate OffRoleNumbers(s: Split, teamA: seq<Player>, a: seq<nat>, teamB: seq<Player>, b: seq<nat>) {
    && Solves(TeamProblem(teamA), a) && s.teamA == Seats(teamA, a)
    && Solves(TeamProblem(teamB), b) && s.teamB == Seats(teamB, b)
    && s.metrics.offRolePenalty == (SeatingCost(teamA, a) + SeatingCost(teamB, b)) as real / 10.0
    && s.offRoles == OffRoleSeats(teamA, a) + OffRoleSeats(teamB, b)
  }

  /** In an evaluated split a seat on a secondary lane adds 0.8 to the off-role penalty, a filled one 1.2 and an
      unwanted one 2.5; the split's off-role count is the number of filled and unwanted seats. */
  lemma OffRoleOfSplit(teamA: seq<Player>, teamB: seq<Player>, ctx: Context, s: Split)
    returns (a: seq<nat>, b: seq<nat>)
    requires DistinctUsers(teamA + teamB) && SplitOf(teamA, teamB, ctx) == Some(s)
    ensures OffRoleNumbers(s, teamA, a, teamB, b)
  {
    SplitSeats(teamA, teamB, ctx, s);
    SplitPenalty(teamA, teamB, ctx, s);
    a, b := NumbersOfSeatings(s, teamA, teamB, SearchCost(teamA), SearchCost(teamB));
  }

  lemma NumbersOfSeatings(s: Split, teamA: seq<Player>, teamB: seq<Player>, costA: nat, costB: nat)
    returns (a: seq<nat>, b: seq<nat>)
    requires SeatTeam(teamA).Some? && s.teamA == SeatTeam(teamA).value.seats
    requires SeatTeam(teamB).Some? && s.teamB == SeatTeam(teamB).value.seats
    requires s.offRoles == SeatTeam(teamA).value.offRoles + SeatTeam(teamB).value.offRoles
    requires costA == SearchCost(teamA) && costB == SearchCost(teamB)
    requires s.metrics.offRolePenalty == (costA + costB) as real / 10.0
    ensures OffRoleNumbers(s, teamA, a, teamB, b)
  {
    a := SeatingHasCost(teamA);
    b := SeatingHasCost(teamB);
  }

  lemma SplitSeats(teamA: seq<Player>, teamB: seq<Player>, ctx: Context, s: Split)
    requires SplitOf(teamA, teamB, ctx) == Some(s)
    ensures SeatTeam(teamA).Some? && s.teamA == SeatTeam(teamA).value.seats
    ensures SeatTeam(teamB).Some? && s.teamB == SeatTeam(teamB).value.seats
    ensures s.offRoles == SeatTeam(teamA).value.offRoles + SeatTeam(teamB).value.offRoles
  {
  }

  lemma SplitPenalty(teamA: seq<Player>, teamB: seq<Player>, ctx: Context, s: Split)
    requires DistinctUsers(teamA + teamB) && SplitOf(teamA, teamB, ctx) == Some(s)
    requires SeatTeam(teamA).Some? && SeatTeam(teamB).Some?
    ensures s.metrics.offRolePenalty == (SearchCost(teamA) + SearchCost(teamB)) as real / 10.0
  {
    OffRolePenaltyIsSearchCost(teamA, teamB, ctx);
  }

  // ---- what a seat shows ----

  /** A seat shows its player on its lane, with their power there or, without one, their overall power. */
  lemma SeatShows(team: seq<Player>, a: seq<nat>, r: nat)
    requires Solves(TeamProblem(team), a) && r < 5
    ensures var p, seat := team[a[r]], Seats(team, a)[r];
      && seat.userId == p.userId && seat.role == [TOP, JUNGLE, MID, ADC, SUPPORT][r]
      && (LANES[r] in p.lanePower ==> seat.power == p.lanePower[LANES[r]])
      && (LANES[r] !in p.lanePower ==> seat.power == p.overallPower)
  {
  }

  /** A candidate's key and ids, written out. */
  lemma KeyInWords(s: Split, no: nat)
    requires InLaneOrder(s.teamA)
    ensures var a := s.teamA;
      var tail := a[3].userId + "-" + "ADC" + "|" + (a[4].userId + "-" + "SUPPORT");
      var key := a[0].userId + "-" + "TOP" + "|"
                 + (a[1].userId + "-" + "JUNGLE" + "|" + (a[2].userId + "-" + "MID" + "|" + tail));
      && CandidateOf(s, BalanceMode.BALANCED, no).combinationKey == key
      && CandidateOf(s, BalanceMode.BALANCED, no).candidateId == "BALANCED" + ":" + key
      && CandidateOf(s, POSITION_FIRST, no).candidateId == "POSITION_FIRST" + ":" + key
      && CandidateOf(s, SKILL_FIRST, no).candidateId == "SKILL_FIRST" + ":" + key
  {
    var a := s.teamA;
    KeyTail(a, 0);
    KeyTail(a, 1);
    KeyTail(a, 2);
    KeyTail(a, 3);
    assert a[0..] == a;
    assert CombinationKey(a[4..]) == a[4].userId + "-" + "SUPPORT";
  }

  lemma KeyTail(a: seq<Seat>, k: nat)
    requires InLaneOrder(a) && k < 4
    ensures CombinationKey(a[k..]) == a[k].userId + "-" + RoleName(LANES[k]) + "|" + CombinationKey(a[k + 1..])
  {
    assert a[k..][1..] == a[k + 1..];
  }
}
