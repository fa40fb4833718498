/** When a quick result is accepted, and when the match view says one can be submitted. */
module ResultInput {
  import opened Domain
  import opened Prelude

  datatype Participant = Participant(
    userId: string, teamSide: Option<TeamSide>, assignedRole: Option<Position>,
    participation: ParticipationStatus, isCaptain: bool)

  datatype InputError = CountMismatch | DuplicatePlayers | WrongPlayers | UnknownMvp | Unassigned | IncompleteTeams

  function Ids(players: seq<Participant>): (r: seq<string>) {
    seq(|players|, (i: nat) requires i < |players| => players[i].userId)
  }

  predicate HasDuplicate(ids: seq<string>) {
    exists i, j :: 0 <= i < j < |ids| && ids[i] == ids[j]
  }

  function OnSide(players: seq<Participant>, side: TeamSide): (r: seq<Participant>)
    ensures forall p :: p in r <==> p in players && p.teamSide == Some(side)
  {
    if players == [] then []
    else if players[0].teamSide == Some(side) then [players[0]] + OnSide(players[1..], side)
    else OnSide(players[1..], side)
  }

  predicate TeamComplete(players: seq<Participant>, side: TeamSide) {
    var team := OnSide(players, side);
    |team| == 5 && forall role | role in LANES :: exists p :: p in team && p.assignedRole == Some(role)
  }

  predicate AllAssigned(players: seq<Participant>) {
    forall p | p in players :: p.teamSide.Some? && p.assignedRole.Some?
  }

  /** The checks before a quick result is saved, in order; None accepts. */
  function CheckInput(players: seq<Participant>, inputIds: seq<string>, mvpUserId: string): (r: Option<InputError>) {
    var matchIds := Elements(Ids(players));
    if |inputIds| != |players| then Some(CountMismatch)
    else if HasDuplicate(inputIds) then Some(DuplicatePlayers)
    else if (exists id :: id in inputIds && id !in matchIds) || (exists id :: id in matchIds && id !in inputIds)
    then Some(WrongPlayers)
    else if mvpUserId !in matchIds then Some(UnknownMvp)
    else if !AllAssigned(players) then Some(Unassigned)
    else if !TeamComplete(players, A) || !TeamComplete(players, B) then Some(IncompleteTeams)
    else None
  }

  datatype BlockedReason = PlayerCountNot10 | TeamOrRoleMissing | LaneTargetsIncomplete | ResultAlreadyFinalized

  function Assigned(players: seq<Participant>): (r: seq<Participant>)
    ensures forall p :: p in r <==> p in players && p.teamSide.Some? && p.assignedRole.Some?
  {
    if players == [] then []
    else if players[0].teamSide.Some? && players[0].assignedRole.Some? then [players[0]] + Assigned(players[1..])
    else Assigned(players[1..])
  }

  /** The reason the match view gives for not accepting a result; None when one can be submitted. */
  function ResultInputBlockedReason(players: seq<Participant>, finalized: bool): (r: Option<BlockedReason>) {
    var placed := Assigned(players);
    if |players| != 10 then Some(PlayerCountNot10)
    else if |placed| != |players| then Some(TeamOrRoleMissing)
    else if !TeamComplete(placed, A) || !TeamComplete(placed, B) then Some(LaneTargetsIncomplete)
    else if finalized then Some(ResultAlreadyFinalized)
    else None
  }

  // ---- what the checks mean ----

  /** The players occupy each (side, lane) slot exactly once, and nothing else. */
  ghost predicate SlotBijection(players: seq<Participant>) {
    && |players| == 10
    && (forall i :: 0 <= i < |players| ==>
          players[i].teamSide.Some? && players[i].assignedRole.Some? && players[i].assignedRole.value in LANES)
    && (forall i, j :: 0 <= i < j < |players| ==>
          players[i].teamSide != players[j].teamSide || players[i].assignedRole != players[j].assignedRole)
    && (forall side, role :: role in LANES ==> Filled(players, side, role))
  }

  ghost predicate Filled(players: seq<Participant>, side: TeamSide, role: Position) {
    exists p :: p in players && p.teamSide == Some(side) && p.assignedRole == Some(role)
  }

  function Roles(team: seq<Participant>): (r: seq<Option<Position>>) {
    seq(|team|, (i: nat) requires i < |team| => team[i].assignedRole)
  }

  lemma {:induction false} FullSizeDistinct<T>(s: seq<T>)
    requires |Elements(s)| == |s|
    ensures Distinct(s)
  {
    if s == [] {
    } else {
      var n := |s| - 1;
      assert Elements(s) == Elements(s[..n]) + {s[n]};
      ElementsBound(s[..n]);
      FullSizeDistinct(s[..n]);
      assert s[n] !in Elements(s[..n]);
      forall i | 0 <= i < n ensures s[i] != s[n] {
        assert s[..n][i] in Elements(s[..n]);
      }
    }
  }

  ghost function LaneSet(): set<Option<Position>> {
    {Some(TOP), Some(JUNGLE), Some(MID), Some(ADC), Some(SUPPORT)}
  }

  lemma LaneSetSize()
    ensures |LaneSet()| == 5
  {
  }

  lemma SubsetOfSameSize<T>(a: set<T>, b: set<T>)
    requires a <= b && |b| <= |a|
    ensures a == b
  {
    SubsetSize(a, b);
  }

  lemma {:induction false} SidesPartition(players: seq<Participant>)
    requires forall p :: p in players ==> p.teamSide.Some?
    ensures |OnSide(players, A)| + |OnSide(players, B)| == |players|
  {
    if players == [] {
    } else {
      assert players[0] in players && (players[0].teamSide.value == A || players[0].teamSide.value == B);
      SidesPartition(players[1..]);
    }
  }

  ghost predicate RosterReady(players: seq<Participant>) {
    AllAssigned(players) && TeamComplete(players, A) && TeamComplete(players, B)
  }

  function Slots(players: seq<Participant>): (r: seq<(Option<TeamSide>, Option<Position>)>) {
    seq(|players|, (i: nat) requires i < |players| => (players[i].teamSide, players[i].assignedRole))
  }

  ghost function TenSlots(): set<(Option<TeamSide>, Option<Position>)> {
    set side: TeamSide, role | role in LANES :: (Some(side), Some(role))
  }

  ghost function SlotsOn(side: TeamSide): set<(Option<TeamSide>, Option<Position>)> {
    set role | role in LANES :: (Some(side), Some(role))
  }

  lemma SlotsOnSize(side: TeamSide)
    ensures |SlotsOn(side)| == 5
  {
    assert LANES[0] == TOP && LANES[1] == JUNGLE && LANES[2] == MID && LANES[3] == ADC && LANES[4] == SUPPORT;
    var s := Some(side);
    assert SlotsOn(side) == {(s, Some(TOP)), (s, Some(JUNGLE)), (s, Some(MID)), (s, Some(ADC)), (s, Some(SUPPORT))};
  }

  lemma TenSlotsSize()
    ensures |TenSlots()| == 10
  {
    SlotsOnSize(A);
    SlotsOnSize(B);
    forall slot ensures slot in TenSlots() <==> slot in SlotsOn(A) + SlotsOn(B) {
      if side: TeamSide, role :| role in LANES && slot == (Some(side), Some(role)) {
        assert slot in SlotsOn(side) && (side == A || side == B);
      }
    }
    assert TenSlots() == SlotsOn(A) + SlotsOn(B);
    assert SlotsOn(A) !! SlotsOn(B);
  }

  lemma ReadyTeamFills(players: seq<Participant>, side: TeamSide, role: Position)
    requires RosterReady(players) && role in LANES
    ensures Filled(players, side, role) && (Some(side), Some(role)) in Slots(players)
  {
    var p :| p in OnSide(players, side) && p.assignedRole == Some(role);
    assert p in players;
    var i :| 0 <= i < |players| && players[i] == p;
    assert Slots(players)[i] == (Some(side), Some(role));
  }

  lemma ReadySlots(players: seq<Participant>)
    requires RosterReady(players)
    ensures |players| == 10 && TenSlots() <= Elements(Slots(players))
  {
    SidesPartition(players);
    forall slot | slot in TenSlots() ensures slot in Elements(Slots(players)) {
      ReadyTeamFills(players, slot.0.value, slot.1.value);
    }
  }

  /** Ten players filling ten slots fill each once and no other. */
  lemma ReadyIsBijection(players: seq<Participant>)
    requires RosterReady(players)
    ensures SlotBijection(players)
  {
    var slots := Slots(players);
    ReadySlots(players);
    TenSlotsSize();
    ElementsBound(slots);
    SubsetOfSameSize(TenSlots(), Elements(slots));
    FullSizeDistinct(slots);
    forall side: TeamSide, role | role in LANES ensures Filled(players, side, role) {
      ReadyTeamFills(players, side, role);
    }
    forall i | 0 <= i < |players|
      ensures players[i].teamSide.Some? && players[i].assignedRole.Some? && players[i].assignedRole.value in LANES
    {
      assert players[i] in players && slots[i] in TenSlots();
    }
    DistinctSlots(players);
  }

  lemma DistinctSlots(players: seq<Participant>)
    requires Distinct(Slots(players))
    ensures forall i, j :: 0 <= i < j < |players| ==>
      players[i].teamSide != players[j].teamSide || players[i].assignedRole != players[j].assignedRole
  {
    forall i, j | 0 <= i < j < |players|
      ensures players[i].teamSide != players[j].teamSide || players[i].assignedRole != players[j].assignedRole
    {
      assert Slots(players)[i] != Slots(players)[j];
    }
  }

  /** A side with every lane filled has at least five players. */
  lemma SideHasFive(players: seq<Participant>, side: TeamSide)
    requires forall role :: role in LANES ==> Filled(players, side, role)
    ensures |OnSide(players, side)| >= 5
    ensures forall role :: role in LANES ==> exists p :: p in OnSide(players, side) && p.assignedRole == Some(role)
  {
    var team := OnSide(players, side);
    var roles := Roles(team);
    forall role | role in LANES ensures Some(role) in roles && exists p :: p in team && p.assignedRole == Some(role) {
      assert Filled(players, side, role);
      var p :| p in players && p.teamSide == Some(side) && p.assignedRole == Some(role);
      assert p in team;
      var i :| 0 <= i < |team| && team[i] == p;
      assert roles[i] == Some(role);
    }
    assert LANES[0] == TOP && LANES[1] == JUNGLE && LANES[2] == MID && LANES[3] == ADC && LANES[4] == SUPPORT;
    assert LaneSet() <= Elements(roles);
    LaneSetSize();
    SubsetSize(LaneSet(), Elements(roles));
    ElementsBound(roles);
  }

  lemma BijectionIsReady(players: seq<Participant>)
    requires SlotBijection(players)
    ensures RosterReady(players)
  {
    assert forall p :: p in players ==> p.teamSide.Some? && p.assignedRole.Some?;
    SidesPartition(players);
    SideHasFive(players, A);
    SideHasFive(players, B);
  }

  lemma NoDuplicateIsDistinct(ids: seq<string>)
    ensures !HasDuplicate(ids) <==> Distinct(ids)
  {
  }

  lemma {:induction false} SameElementsSameMultiset(a: seq<string>, b: seq<string>)
    requires Distinct(a) && Distinct(b) && Elements(a) == Elements(b)
    ensures multiset(a) == multiset(b)
  {
    forall x ensures multiset(a)[x] == multiset(b)[x] {
      DistinctCount(a, x);
      DistinctCount(b, x);
      assert x in a <==> x in Elements(b);
    }
  }

  lemma {:induction false} DistinctCount(s: seq<string>, x: string)
    requires Distinct(s)
    ensures multiset(s)[x] == if x in s then 1 else 0
  {
    if s == [] {
    } else {
      DistinctCount(s[1..], x);
      assert s == [s[0]] + s[1..];
      assert s[0] !in s[1..];
    }
  }

  lemma PermutationFacts(a: seq<string>, b: seq<string>)
    requires multiset(a) == multiset(b) && Distinct(b)
    ensures |a| == |b| && Distinct(a) && Elements(a) == Elements(b)
  {
    assert |multiset(a)| == |multiset(b)|;
    forall x ensures x in a <==> x in b {
      assert x in multiset(a) <==> x in multiset(b);
    }
    DistinctSize(b);
    assert Elements(a) == Elements(b);
    FullSizeDistinct(a);
  }

  /** A quick result is accepted exactly when the input is a permutation of the match players, the MVP is
      one of them, and the players are in bijection with the ten (side, lane) slots. */
  lemma AcceptedExactly(players: seq<Participant>, inputIds: seq<string>, mvpUserId: string)
    requires Distinct(Ids(players))
    ensures CheckInput(players, inputIds, mvpUserId).None? <==>
      multiset(inputIds) == multiset(Ids(players)) && mvpUserId in Ids(players) && SlotBijection(players)
  {
    var ids := Ids(players);
    NoDuplicateIsDistinct(inputIds);
    if CheckInput(players, inputIds, mvpUserId).None? {
      assert Elements(inputIds) == Elements(ids);
      SameElementsSameMultiset(inputIds, ids);
      ReadyIsBijection(players);
    }
    if multiset(inputIds) == multiset(ids) && mvpUserId in ids && SlotBijection(players) {
      PermutationFacts(inputIds, ids);
      BijectionIsReady(players);
    }
  }

  lemma {:induction false} AssignedIsAll(players: seq<Participant>)
    ensures |Assigned(players)| <= |players|
    ensures |Assigned(players)| == |players| <==> AllAssigned(players)
    ensures AllAssigned(players) ==> Assigned(players) == players
  {
    if players == [] {
    } else {
      AssignedIsAll(players[1..]);
      assert AllAssigned(players) ==> AllAssigned(players[1..]);
      assert players[0] in players;
    }
  }

  /** The roster part of the check holds exactly when the view would allow a result, finalisation aside. */
  lemma ViewAgreesWithCheck(players: seq<Participant>)
    ensures RosterReady(players) <==> ResultInputBlockedReason(players, false).None?
    ensures RosterReady(players) <==> SlotBijection(players)
  {
    AssignedIsAll(players);
    if RosterReady(players) {
      ReadyIsBijection(players);
    }
    if SlotBijection(players) {
      BijectionIsReady(players);
    }
  }

  /** Which error a refused input gets: the first of the conditions of AcceptedExactly that fails. */
  lemma RefusedExactly(players: seq<Participant>, inputIds: seq<string>, mvpUserId: string)
    requires Distinct(Ids(players))
    ensures var e := CheckInput(players, inputIds, mvpUserId);
      var same := multiset(inputIds) == multiset(Ids(players));
      && (e == Some(CountMismatch) <==> |inputIds| != |players|)
      && (e == Some(DuplicatePlayers) <==> |inputIds| == |players| && !Distinct(inputIds))
      && (e == Some(WrongPlayers) <==> |inputIds| == |players| && Distinct(inputIds) && !same)
      && (e == Some(UnknownMvp) <==> same && mvpUserId !in Ids(players))
      && (e == Some(Unassigned) <==> same && mvpUserId in Ids(players) && SomeoneUnplaced(players))
      && (e == Some(IncompleteTeams) <==>
            same && mvpUserId in Ids(players) && !SomeoneUnplaced(players) && !SlotBijection(players))
  {
    NoDuplicateIsDistinct(inputIds);
    PlacedExactly(players);
    SameIdsExactly(players, inputIds);
    ViewAgreesWithCheck(players);
  }

  ghost predicate SomeoneUnplaced(players: seq<Participant>) {
    exists i :: 0 <= i < |players| && (players[i].teamSide.None? || players[i].assignedRole.None?)
  }

  lemma PlacedExactly(players: seq<Participant>)
    ensures AllAssigned(players) <==> !SomeoneUnplaced(players)
  {
    assert forall i :: 0 <= i < |players| ==> players[i] in players;
  }

  lemma SameIdsExactly(players: seq<Participant>, inputIds: seq<string>)
    requires Distinct(Ids(players))
    ensures var known := Elements(Ids(players));
      var foreign := (exists id :: id in inputIds && id !in known) || (exists id :: id in known && id !in inputIds);
      multiset(inputIds) == multiset(Ids(players)) <==>
        |inputIds| == |players| && Distinct(inputIds) && !foreign
  {
    var ids := Ids(players);
    if multiset(inputIds) == multiset(ids) {
      PermutationFacts(inputIds, ids);
      assert forall id :: id in inputIds <==> id in Elements(inputIds);
    } else if Distinct(inputIds) && Elements(inputIds) == Elements(ids) {
      SameElementsSameMultiset(inputIds, ids);
    } else {
      assert Elements(inputIds) != Elements(ids) ==>
        (exists id :: id in Elements(inputIds) && id !in Elements(ids))
        || (exists id :: id in Elements(ids) && id !in Elements(inputIds));
    }
  }

  /** The reason the match view gives, in the same terms. */
  lemma BlockedExactly(players: seq<Participant>, finalized: bool)
    ensures var reason := ResultInputBlockedReason(players, finalized);
      && (reason == Some(PlayerCountNot10) <==> |players| != 10)
      && (reason == Some(TeamOrRoleMissing) <==> |players| == 10 && SomeoneUnplaced(players))
      && (reason == Some(LaneTargetsIncomplete) <==>
            |players| == 10 && !SomeoneUnplaced(players) && !SlotBijection(players))
      && (reason == Some(ResultAlreadyFinalized) <==> SlotBijection(players) && finalized)
      && (reason == None <==> SlotBijection(players) && !finalized)
  {
    PlacedExactly(players);
    AssignedIsAll(players);
    ViewAgreesWithCheck(players);
  }
}
