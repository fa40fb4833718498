/** Rosters that can take a result: after assigning a candidate always, after a manual balance exactly when
    nobody is seated as FILL; and which balances are saved at all. */
module SeatedRosters {
  import opened Balancer
  import opened CandidateKeys
  import opened Domain
  import opened Prelude
  import opened Rematch
  import opened ResultInput
  import opened ResultLifecycle
  import opened TeamMetrics

  // ---- ten players on ten slots ----

  lemma DistinctSlotsFill(players: seq<Participant>)
    requires |players| == 10 && Distinct(Slots(players))
    requires forall slot :: slot in Slots(players) ==> slot in TenSlots()
    ensures SlotBijection(players)
  {
    var slots := Slots(players);
    TenSlotsSize();
    DistinctSize(slots);
    assert Elements(slots) <= TenSlots();
    SubsetOfSameSize(Elements(slots), TenSlots());
    forall i | 0 <= i < |players|
      ensures players[i].teamSide.Some? && players[i].assignedRole.Some? && players[i].assignedRole.value in LANES
    {
      assert slots[i] in slots && slots[i] in TenSlots();
    }
    forall side: TeamSide, role | role in LANES ensures Filled(players, side, role) {
      assert (Some(side), Some(role)) in Elements(slots);
      var i :| 0 <= i < |slots| && slots[i] == (Some(side), Some(role));
      assert players[i] in players;
    }
    DistinctSlots(players);
  }

  /** Different seats are on different slots. */
  ghost predicate SeatsDiffer(seats: seq<SeatOf>) {
    forall i, j :: 0 <= i < j < |seats| ==> seats[i].teamSide != seats[j].teamSide || seats[i].role != seats[j].role
  }

  /** A seat for each player of the roster. */
  ghost predicate SeatsEveryone(roster: seq<Participant>, seats: seq<SeatOf>) {
    && |roster| == |seats| == 10 && Distinct(Ids(roster)) && Distinct(SeatIds(seats))
    && KnownSeats(roster, seats) && SeatsDiffer(seats)
  }

  lemma SeatOfPlayer(roster: seq<Participant>, seats: seq<SeatOf>, i: nat) returns (k: nat)
    requires SeatsEveryone(roster, seats) && i < |roster|
    ensures k < |seats| && seats[k].userId == roster[i].userId
  {
    DistinctSize(Ids(roster));
    DistinctSize(SeatIds(seats));
    forall id | id in SeatIds(seats) ensures id in Ids(roster) {
      var j :| 0 <= j < |seats| && SeatIds(seats)[j] == id;
      assert seats[j] in seats;
    }
    assert Elements(SeatIds(seats)) <= Elements(Ids(roster));
    SubsetOfSameSize(Elements(SeatIds(seats)), Elements(Ids(roster)));
    assert Ids(roster)[i] in Elements(SeatIds(seats));
    k :| 0 <= k < |seats| && SeatIds(seats)[k] == roster[i].userId;
  }

  /** The slot a player ends up on is the one of their seat. */
  lemma SlotAfter(roster: seq<Participant>, seats: seq<SeatOf>, i: nat) returns (k: nat)
    requires SeatsEveryone(roster, seats) && i < |roster|
    ensures k < |seats| && seats[k].userId == roster[i].userId
    ensures Slots(Seated(roster, seats))[i] == (Some(seats[k].teamSide), Some(seats[k].role))
  {
    k := SeatOfPlayer(roster, seats, i);
    SeatedEffect(roster, seats, i, k);
  }

  lemma SlotsApart(roster: seq<Participant>, seats: seq<SeatOf>, i: nat, j: nat)
    requires SeatsEveryone(roster, seats) && i < j < |roster|
    ensures Slots(Seated(roster, seats))[i] != Slots(Seated(roster, seats))[j]
  {
    var k := SlotAfter(roster, seats, i);
    var l := SlotAfter(roster, seats, j);
    assert Ids(roster)[i] != Ids(roster)[j];
    assert k < l || l < k;
  }

  lemma SeatedFills(roster: seq<Participant>, seats: seq<SeatOf>)
    requires SeatsEveryone(roster, seats) && forall seat :: seat in seats ==> seat.role in LANES
    ensures SlotBijection(Seated(roster, seats))
  {
    var after := Seated(roster, seats);
    forall i: nat, j: nat | i < j < |after| ensures Slots(after)[i] != Slots(after)[j] {
      SlotsApart(roster, seats, i, j);
    }
    forall slot | slot in Slots(after) ensures slot in TenSlots() {
      var i: nat :| i < |after| && Slots(after)[i] == slot;
      var k := SlotAfter(roster, seats, i);
      assert seats[k] in seats;
    }
    DistinctSlotsFill(after);
  }

  // ---- candidates ----

  lemma CandidateSeatAt(players: seq<Player>, c: Candidate, f: seq<nat>, g: seq<nat>, i: nat)
    requires SeatedAs(players, f, c.split.teamA) && SeatedAs(players, g, c.split.teamB) && i < 10
    ensures |SeatsFor(c)| == 10
    ensures SeatsFor(c)[i].teamSide == (if i < 5 then A else B)
    ensures SeatsFor(c)[i].role == LANES[if i < 5 then i else i - 5]
  {
  }

  lemma CandidateSeatsDiffer(players: seq<Player>, c: Candidate, f: seq<nat>, g: seq<nat>)
    requires SeatedAs(players, f, c.split.teamA) && SeatedAs(players, g, c.split.teamB)
    ensures |SeatsFor(c)| == 10 && SeatsDiffer(SeatsFor(c)) && forall seat :: seat in SeatsFor(c) ==> seat.role in LANES
  {
    CandidateSeatAt(players, c, f, g, 0);
    forall i: nat, j: nat | i < j < 10
      ensures SeatsFor(c)[i].teamSide != SeatsFor(c)[j].teamSide || SeatsFor(c)[i].role != SeatsFor(c)[j].role
    {
      CandidateSeatAt(players, c, f, g, i);
      CandidateSeatAt(players, c, f, g, j);
      LaneIndexInjective(LANES[if i < 5 then i else i - 5]);
    }
    forall seat | seat in SeatsFor(c) ensures seat.role in LANES {
      var i: nat :| i < 10 && SeatsFor(c)[i] == seat;
      CandidateSeatAt(players, c, f, g, i);
    }
  }

  lemma RosterIdsDistinct(roster: seq<Participant>, players: seq<Player>)
    requires SamePlayers(roster, players) && DistinctUsers(players)
    ensures Distinct(Ids(roster))
  {
    forall i, j | 0 <= i < j < |roster| ensures Ids(roster)[i] != Ids(roster)[j] {
      assert players[i].userId != players[j].userId;
    }
  }

  /** Whatever candidate of whatever answer is assigned, the roster fills the ten slots once each, so the match
      view allows a result. */
  lemma AssignedCanTakeResult(roster: seq<Participant>, players: seq<Player>, ctx: Context, q: Request, c: Candidate)
    requires |players| == 2 * TEAM_SIZE && SamePlayers(roster, players) && DistinctUsers(players)
    requires c in Present(PicksOf(players, ctx, q))
    ensures SlotBijection(Seated(roster, SeatsFor(c)))
    ensures ResultInputBlockedReason(Seated(roster, SeatsFor(c)), false).None?
  {
    var s, f, g := CandidateSeatsEveryone(players, ctx, q, c);
    SeatIdsDistinct(players, c, s, f, g);
    SeatsAreKnown(roster, players, c, f, g);
    CandidateSeatsDiffer(players, c, f, g);
    RosterIdsDistinct(roster, players);
    SeatedFills(roster, SeatsFor(c));
    ViewAgreesWithCheck(Seated(roster, SeatsFor(c)));
  }

  // ---- manual balance ----

  lemma {:induction false} RoleListed(seats: seq<SeatOf>, k: nat)
    requires k < |seats|
    ensures seats[k].role in SeatRoles(seats, seats[k].teamSide)
  {
    if k == 0 {
    } else {
      RoleListed(seats[1..], k - 1);
    }
  }

  lemma {:induction false} RolesDifferOnSide(seats: seq<SeatOf>)
    requires Distinct(SeatRoles(seats, A)) && Distinct(SeatRoles(seats, B))
    ensures SeatsDiffer(seats)
  {
    if seats == [] {
    } else {
      RestDistinct(seats, A);
      RestDistinct(seats, B);
      RolesDifferOnSide(seats[1..]);
      forall j | 1 <= j < |seats| && seats[j].teamSide == seats[0].teamSide ensures seats[j].role != seats[0].role {
        RoleListed(seats[1..], j - 1);
        HeadRoleOnce(seats);
      }
    }
  }

  lemma RestDistinct(seats: seq<SeatOf>, side: TeamSide)
    requires seats != [] && Distinct(SeatRoles(seats, side))
    ensures Distinct(SeatRoles(seats[1..], side))
  {
    var rest := SeatRoles(seats[1..], side);
    if seats[0].teamSide == side {
      assert rest == SeatRoles(seats, side)[1..];
    }
  }

  lemma HeadRoleOnce(seats: seq<SeatOf>)
    requires seats != [] && Distinct(SeatRoles(seats, seats[0].teamSide))
    ensures seats[0].role !in SeatRoles(seats[1..], seats[0].teamSide)
  {
    HeadOnce(seats[0].role, SeatRoles(seats[1..], seats[0].teamSide));
  }

  lemma HeadOnce(role: Position, rest: seq<Position>)
    requires Distinct([role] + rest)
    ensures role !in rest
  {
    var all := [role] + rest;
    forall i | 0 <= i < |rest| ensures rest[i] != role {
      assert all[0] == role && all[i + 1] == rest[i];
    }
  }

  lemma ManualSeatsEveryone(roster: seq<Participant>, seats: seq<SeatOf>)
    requires |roster| == 10 && Distinct(Ids(roster)) && ManualSeatsValid(roster, seats)
    ensures SeatsEveryone(roster, seats)
  {
    DistinctSize(Ids(roster));
    FullSizeDistinct(SeatIds(seats));
    FullSizeDistinct(SeatRoles(seats, A));
    FullSizeDistinct(SeatRoles(seats, B));
    RolesDifferOnSide(seats);
  }

  /** A saved manual balance fills the ten slots once each exactly when no seat is FILL, and only then does the
      match view allow a result. */
  lemma ManualBalanceFillsExactly(s: MatchState, seats: seq<SeatOf>)
    requires Distinct(Ids(s.players)) && SaveManualBalance(s, seats).1 == Done
    ensures var after := SaveManualBalance(s, seats).0.players;
      && (SlotBijection(after) <==> forall seat :: seat in seats ==> seat.role != FILL)
      && (ResultInputBlockedReason(after, false).None? <==> forall seat :: seat in seats ==> seat.role != FILL)
  {
    var after := Seated(s.players, seats);
    ManualSeatsEveryone(s.players, seats);
    ViewAgreesWithCheck(after);
    LanesAreNotFill();
    if forall seat :: seat in seats ==> seat.role != FILL {
      SeatedFills(s.players, seats);
    } else {
      FillIsNoLane(s.players, seats);
    }
  }

  lemma LanesAreNotFill()
    ensures forall role: Position :: role in LANES <==> role != FILL
  {
    forall role: Position ensures role in LANES <==> role != FILL {
      assert LANES[0] == TOP && LANES[1] == JUNGLE && LANES[2] == MID && LANES[3] == ADC && LANES[4] == SUPPORT;
    }
  }

  lemma FillIsNoLane(roster: seq<Participant>, seats: seq<SeatOf>)
    requires SeatsEveryone(roster, seats) && exists seat :: seat in seats && seat.role == FILL
    ensures !SlotBijection(Seated(roster, seats))
  {
    var k: nat :| k < |seats| && seats[k].role == FILL;
    assert seats[k] in seats;
    var i: nat :| i < |roster| && Ids(roster)[i] == seats[k].userId;
    SeatedEffect(roster, seats, i, k);
    LanesAreNotFill();
  }

  // ---- which manual balances are saved ----

  ghost function SeatsOnSide(seats: seq<SeatOf>, side: TeamSide): set<nat> {
    Where(|seats|, (i: nat) => i < |seats| && seats[i].teamSide == side)
  }

  lemma {:induction false} SideRolesAppend(seats: seq<SeatOf>, seat: SeatOf, side: TeamSide)
    ensures SeatRoles(seats + [seat], side)
         == SeatRoles(seats, side) + if seat.teamSide == side then [seat.role] else []
  {
    if seats == [] {
      assert ([] + [seat])[1..] == [];
    } else {
      assert (seats + [seat])[1..] == seats[1..] + [seat];
      SideRolesAppend(seats[1..], seat, side);
    }
  }

  lemma OneMoreSeat(seats: seq<SeatOf>, seat: SeatOf, side: TeamSide)
    ensures |SeatsOnSide(seats + [seat], side)| == |SeatsOnSide(seats, side)| + if seat.teamSide == side then 1 else 0
  {
    var all := seats + [seat];
    var holds := (i: nat) => i < |all| && all[i].teamSide == side;
    WhereGrows(|seats|, holds);
    assert Where(|seats|, holds) == SeatsOnSide(seats, side);
  }

  /** The roles listed for a side are those of its seats. */
  lemma {:induction false} SideRoles(seats: seq<SeatOf>, side: TeamSide)
    ensures |SeatRoles(seats, side)| == |SeatsOnSide(seats, side)|
    ensures forall role :: role in SeatRoles(seats, side) ==> RoleOnSide(seats, side, role)
    ensures SeatsDiffer(seats) ==> Distinct(SeatRoles(seats, side))
  {
    if seats == [] {
      assert SeatsOnSide(seats, side) == {};
    } else {
      var n := |seats| - 1;
      assert seats == seats[..n] + [seats[n]];
      SideRoles(seats[..n], side);
      SideRolesAppend(seats[..n], seats[n], side);
      OneMoreSeat(seats[..n], seats[n], side);
      MoreRoles(seats[..n], seats[n], side);
      if SeatsDiffer(seats) && seats[n].teamSide == side {
        LastRoleDiffers(seats, n);
      }
    }
  }

  lemma MoreRoles(seats: seq<SeatOf>, seat: SeatOf, side: TeamSide)
    ensures forall role :: RoleOnSide(seats, side, role) ==> RoleOnSide(seats + [seat], side, role)
    ensures RoleOnSide(seats + [seat], seat.teamSide, seat.role)
  {
    var all := seats + [seat];
    assert all[|seats|] == seat;
    forall role | RoleOnSide(seats, side, role) ensures RoleOnSide(all, side, role) {
      var i :| 0 <= i < |seats| && seats[i].teamSide == side && seats[i].role == role;
      assert all[i] == seats[i];
    }
  }

  ghost predicate RoleOnSide(seats: seq<SeatOf>, side: TeamSide, role: Position) {
    exists i :: 0 <= i < |seats| && seats[i].teamSide == side && seats[i].role == role
  }

  lemma LastRoleDiffers(seats: seq<SeatOf>, n: nat)
    requires n + 1 == |seats| && SeatsDiffer(seats)
    ensures !RoleOnSide(seats[..n], seats[n].teamSide, seats[n].role)
  {
  }

  /** The ten players of the roster, each seated once, five on a side and no two of a side on one role. */
  ghost predicate FairSeats(roster: seq<Participant>, seats: seq<SeatOf>) {
    && SeatsEveryone(roster, seats)
    && |SeatsOnSide(seats, A)| == 5 && |SeatsOnSide(seats, B)| == 5
  }

  /** A manual balance is saved exactly for such seats, of a match that is neither running nor over; it seats them
      and changes nothing else but the status. */
  lemma ManualBalanceSavedExactly(s: MatchState, seats: seq<SeatOf>)
    requires Distinct(Ids(s.players))
    ensures var (t, answer) := SaveManualBalance(s, seats);
      && (answer == Done <==>
            s.status !in {MatchStatus.IN_PROGRESS, MatchStatus.CONFIRMED, MatchStatus.CLOSED}
            && FairSeats(s.players, seats))
      && (answer != Done ==> t == s)
      && (answer == Done ==> t == s.(status := MatchStatus.BALANCED, players := Seated(s.players, seats)))
  {
    SideRoles(seats, A);
    SideRoles(seats, B);
    if |s.players| == 10 && ManualSeatsValid(s.players, seats) {
      ManualSeatsEveryone(s.players, seats);
    }
    if FairSeats(s.players, seats) {
      FairIsValid(s.players, seats);
    }
  }

  lemma FairIsValid(roster: seq<Participant>, seats: seq<SeatOf>)
    requires FairSeats(roster, seats)
    ensures ManualSeatsValid(roster, seats)
  {
    SideRoles(seats, A);
    SideRoles(seats, B);
    DistinctSize(Ids(roster));
    DistinctSize(SeatIds(seats));
    DistinctSize(SeatRoles(seats, A));
    DistinctSize(SeatRoles(seats, B));
  }

  /** Assigning seats goes through exactly when there are some and they name players of the roster only. */
  lemma AssignedExactly(s: MatchState, seats: Option<seq<SeatOf>>)
    ensures var (t, answer) := AssignCandidate(s, seats);
      && (answer == NotFound <==> seats.None?)
      && (answer == Done <==> seats.Some? && forall seat :: seat in seats.value ==> OnRoster(s.players, seat.userId))
      && (answer != Done ==> t == s)
      && (answer == Done ==> t == s.(status := MatchStatus.BALANCED, players := Seated(s.players, seats.value)))
  {
    if seats.Some? {
      forall seat | seat in seats.value ensures seat.userId in Ids(s.players) <==> OnRoster(s.players, seat.userId) {
        RosterIds(s.players, seat.userId);
      }
    }
  }

  ghost predicate OnRoster(players: seq<Participant>, userId: string) {
    exists p :: p in players && p.userId == userId
  }

  lemma RosterIds(players: seq<Participant>, userId: string)
    ensures userId in Ids(players) <==> OnRoster(players, userId)
  {
    if p :| p in players && p.userId == userId {
      var i :| 0 <= i < |players| && players[i] == p;
      assert Ids(players)[i] == userId;
    }
    if i :| 0 <= i < |players| && Ids(players)[i] == userId {
      assert players[i] in players;
    }
  }
}
