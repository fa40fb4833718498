/** The rematch input fed back unchanged: every player is locked to the seat of the match. */
module RematchLocks {
  import opened Balancer
  import opened BalancerOptimality
  import opened CandidateKeys
  import opened Combinations
  import opened Domain
  import opened Prelude
  import opened Rematch
  import opened ResultInput
  import opened TeamMetrics

  /** Each player of the rematch is locked to the side and role of the roster; powers and preferences are free. */
  ghost predicate LockedIn(players: seq<Player>, roster: seq<Participant>) {
    && SamePlayers(roster, players)
    && forall i :: 0 <= i < |roster| ==>
         players[i].lockedTeamSide == roster[i].teamSide && players[i].lockedRole == roster[i].assignedRole
  }

  ghost function OnA(roster: seq<Participant>): set<nat> {
    set i | i in Below(|roster|) && roster[i].teamSide == Some(A)
  }

  lemma SlotIndex(roster: seq<Participant>, side: TeamSide, role: Position) returns (i: nat)
    requires SlotBijection(roster) && role in LANES
    ensures i < |roster| && roster[i].teamSide == Some(side) && roster[i].assignedRole == Some(role)
  {
    assert Filled(roster, side, role);
    var p :| p in roster && p.teamSide == Some(side) && p.assignedRole == Some(role);
    i :| 0 <= i < |roster| && roster[i] == p;
  }

  /** The roster indices on the lanes of one side. */
  ghost predicate Seats(roster: seq<Participant>, side: TeamSide, f: seq<nat>) {
    |f| == 5 && forall k: nat :: k < 5 ==>
      f[k] < |roster| && roster[f[k]].teamSide == Some(side) && roster[f[k]].assignedRole == Some(LANES[k])
  }

  lemma SeatsOf(roster: seq<Participant>, side: TeamSide) returns (f: seq<nat>)
    requires SlotBijection(roster)
    ensures Seats(roster, side, f)
  {
    var top := SlotIndex(roster, side, LANES[0]);
    var jungle := SlotIndex(roster, side, LANES[1]);
    var mid := SlotIndex(roster, side, LANES[2]);
    var adc := SlotIndex(roster, side, LANES[3]);
    var support := SlotIndex(roster, side, LANES[4]);
    f := [top, jungle, mid, adc, support];
  }

  /** Whoever sits on a side sits on one of its five seats. */
  lemma SeatTaken(roster: seq<Participant>, side: TeamSide, f: seq<nat>, i: nat)
    requires SlotBijection(roster) && Seats(roster, side, f) && i < |roster| && roster[i].teamSide == Some(side)
    ensures i in f
  {
    var k: nat :| k < 5 && LANES[k] == roster[i].assignedRole.value;
    assert f[k] == i;
  }

  lemma SeatsDistinct(roster: seq<Participant>, side: TeamSide, f: seq<nat>)
    requires Seats(roster, side, f)
    ensures Distinct(f)
  {
    forall j, k | 0 <= j < k < 5 ensures f[j] != f[k] {
      LaneIndexInjective(LANES[j]);
      LaneIndexInjective(LANES[k]);
    }
  }

  lemma OnAIsHalf(roster: seq<Participant>, f: seq<nat>)
    requires SlotBijection(roster) && Seats(roster, A, f)
    ensures Elements(f) == OnA(roster) && HalfSplit(OnA(roster), |roster|) && SideAIs(roster, f)
  {
    forall i: nat | i < |roster| && roster[i].teamSide == Some(A) ensures i in f {
      SeatTaken(roster, A, f, i);
    }
    assert Elements(f) == OnA(roster);
    SeatsDistinct(roster, A, f);
    DistinctSize(f);
  }

  /** The old split is the only one the locks allow. */
  lemma OnlyOldSplit(players: seq<Player>, roster: seq<Participant>, s: set<nat>)
    requires SlotBijection(roster) && LockedIn(players, roster) && s <= Below(|players|)
    ensures LockRespecting(players, s) <==> s == OnA(roster)
  {
    forall i: nat | i < |roster| ensures players[i].lockedTeamSide.Some? {
      assert roster[i].teamSide.Some?;
    }
    if LockRespecting(players, s) {
      forall i: nat ensures i in s <==> i in OnA(roster) {
        assert i in s ==> i in Below(|players|);
      }
    }
  }

  lemma SlotNamesSeat(roster: seq<Participant>, f: seq<nat>, i: nat, k: nat)
    requires SlotBijection(roster) && Seats(roster, A, f) && i < |roster| && k < 5
    requires roster[i].teamSide == Some(A) && roster[i].assignedRole == Some(LANES[k])
    ensures i == f[k]
  {
    assert roster[f[k]].teamSide == roster[i].teamSide && roster[f[k]].assignedRole == roster[i].assignedRole;
  }

  /** And the old lanes are the only lineup on side A. */
  lemma OnlyOldLineup(players: seq<Player>, roster: seq<Participant>, f: seq<nat>, g: seq<nat>)
    requires SlotBijection(roster) && LockedIn(players, roster) && Seats(roster, A, f)
    requires Lineup(players, OnA(roster), g)
    ensures g == f
  {
    forall k: nat | k < 5 ensures g[k] == f[k] {
      LineupKeepsSlot(players, roster, g, k);
      SlotNamesSeat(roster, f, g[k], k);
    }
  }

  lemma LineupKeepsSlot(players: seq<Player>, roster: seq<Participant>, g: seq<nat>, k: nat)
    requires SlotBijection(roster) && LockedIn(players, roster) && Lineup(players, OnA(roster), g) && k < 5
    ensures g[k] < |roster| && roster[g[k]].teamSide == Some(A) && roster[g[k]].assignedRole == Some(LANES[k])
  {
    assert g[k] in Elements(g) && g[k] in OnA(roster);
    assert RoleCost(players[g[k]], LANES[k]).Finite?;
    assert roster[g[k]].assignedRole.Some?;
  }

  /** Every candidate repeats the old combination, whatever keys are excluded. */
  lemma OnlyOldCombination(players: seq<Player>, roster: seq<Participant>, ctx: Context, q: Request, c: Candidate)
    requires SlotBijection(roster) && LockedIn(players, roster)
    requires c in Present(PicksOf(players, ctx, q))
    ensures Some(c.combinationKey) == RosterKey(roster)
  {
    CandidatesComeFromSplits(players, ctx, q, c);
    var s :| HalfSplit(s, |players|) && 0 in s && SideOf(players, s, ctx) == Some(c.split);
    SideRespectsLocks(players, s, ctx);
    OnlyOldSplit(players, roster, s);
    var g := SideSeatsTeam(players, s, ctx);
    var f := SeatsOf(roster, A);
    OnAIsHalf(roster, f);
    OnlyOldLineup(players, roster, f, g);
    KeyReadsBack(roster, players, f, c.split.teamA);
    KeyIsOfTeamA(players, ctx, q, c);
  }

  lemma LockedApartSeats(team: seq<Player>)
    requires |team| == 5
    requires forall i :: 0 <= i < 5 ==> team[i].lockedRole.Some? && team[i].lockedRole.value in LANES
    requires forall i, j :: 0 <= i < j < 5 ==> team[i].lockedRole != team[j].lockedRole
    ensures SeatTeam(team).Some?
  {
    TeamUnassignableExactly(team);
  }

  lemma OldTeam(players: seq<Player>, roster: seq<Participant>, s: set<nat>, side: TeamSide, c: seq<nat>)
    requires SlotBijection(roster) && LockedIn(players, roster) && s <= Below(|players|)
    requires forall i :: i in s ==> roster[i].teamSide == Some(side)
    requires Elements(c) == s && Distinct(c)
    ensures forall i :: i in c ==> i < |players|
    ensures var team := Team(players, c);
      && (forall i :: 0 <= i < |team| ==> team[i].lockedRole.Some? && team[i].lockedRole.value in LANES)
      && (forall i, j :: 0 <= i < j < |team| ==> team[i].lockedRole != team[j].lockedRole)
  {
    forall i | 0 <= i < |c| ensures c[i] in s && c[i] < |players| && roster[c[i]].teamSide == Some(side) {
      assert c[i] in Elements(c);
    }
  }

  lemma TeamStillSeated(players: seq<Player>, roster: seq<Participant>, s: set<nat>, side: TeamSide)
    requires SlotBijection(roster) && LockedIn(players, roster) && HalfSplit(s, |players|)
    requires forall i :: i in s ==> roster[i].teamSide == Some(side)
    ensures SeatTeam(Team(players, Ascending(s, 0, |players|))).Some?
  {
    var c := Ascending(s, 0, |players|);
    AscendingEnumerates(s, |players|);
    IncreasingDistinct(c);
    OldTeam(players, roster, s, side, c);
    LockedApartSeats(Team(players, c));
  }

  lemma OldHalves(roster: seq<Participant>)
    requires SlotBijection(roster)
    ensures HalfSplit(OnA(roster), |roster|) && HalfSplit(Mirrored(OnA(roster), |roster|), |roster|)
    ensures forall i :: i in OnA(roster) ==> roster[i].teamSide == Some(A)
    ensures forall i :: i in Mirrored(OnA(roster), |roster|) ==> roster[i].teamSide == Some(B)
  {
    var f := SeatsOf(roster, A);
    OnAIsHalf(roster, f);
    MirroredHalf(OnA(roster), |roster|);
    forall i | i in Mirrored(OnA(roster), |roster|) ensures roster[i].teamSide == Some(B) {
      EitherSide(roster, i);
    }
  }

  lemma EitherSide(roster: seq<Participant>, i: nat)
    requires SlotBijection(roster) && i < |roster|
    ensures roster[i].teamSide == Some(A) || roster[i].teamSide == Some(B)
  {
    assert roster[i].teamSide.Some?;
    assert roster[i].teamSide.value == A || roster[i].teamSide.value == B;
  }

  lemma OldTeamsSeated(players: seq<Player>, roster: seq<Participant>)
    requires SlotBijection(roster) && LockedIn(players, roster)
    ensures HalfSplit(OnA(roster), |players|)
    ensures SeatTeam(Team(players, Ascending(OnA(roster), 0, |players|))).Some?
    ensures SeatTeam(Team(players, Ascending(Mirrored(OnA(roster), |players|), 0, |players|))).Some?
  {
    OldHalves(roster);
    TeamStillSeated(players, roster, OnA(roster), A);
    TeamStillSeated(players, roster, Mirrored(OnA(roster), |players|), B);
  }

  lemma OldSplitEvaluates(players: seq<Player>, roster: seq<Participant>, ctx: Context)
    requires SlotBijection(roster) && LockedIn(players, roster)
    ensures HalfSplit(OnA(roster), |players|) && SideOf(players, OnA(roster), ctx).Some?
  {
    OldTeamsSeated(players, roster);
    OnlyOldSplit(players, roster, OnA(roster));
    SeatedEvaluates(players, OnA(roster), ctx);
  }

  lemma ThreeOnSideA(players: seq<Player>, roster: seq<Participant>, ctx: Context, q: Request)
    requires SlotBijection(roster) && LockedIn(players, roster) && q.excludedIds == []
    requires roster[0].teamSide == Some(A)
    ensures |Present(PicksOf(players, ctx, q))| == 3
  {
    OldSplitEvaluates(players, roster, ctx);
    assert 0 in OnA(roster);
    AllOrNothing(players, ctx, q);
  }

  /** Fed back unchanged, the rematch input yields nothing when its first player sat on side B, and otherwise,
      without excluded ids, three candidates that all repeat the old combination although it is excluded. */
  lemma RematchRepeatsOrFails(players: seq<Player>, roster: seq<Participant>, ctx: Context, q: Request)
    requires SlotBijection(roster) && LockedIn(players, roster) && q.excludedIds == []
    ensures |Present(PicksOf(players, ctx, q))| == if roster[0].teamSide == Some(B) then 0 else 3
    ensures forall c :: c in Present(PicksOf(players, ctx, q)) ==> Some(c.combinationKey) == RosterKey(roster)
  {
    EitherSide(roster, 0);
    if roster[0].teamSide == Some(B) {
      FirstPlayerLockedToB(players, ctx, q);
    } else {
      ThreeOnSideA(players, roster, ctx, q);
    }
    forall c | c in Present(PicksOf(players, ctx, q)) ensures Some(c.combinationKey) == RosterKey(roster) {
      OnlyOldCombination(players, roster, ctx, q, c);
    }
  }
}
