/** Which lobbies lose evaluable splits because only splits with player 0 on side A are listed. */
module LockLoss {
  import opened Balancer
  import opened BalancerOptimality
  import opened Combinations
  import opened Domain
  import opened Prelude
  import opened RoleSearch
  import opened TeamMetrics

  // ---- evaluable splits in terms of the locks ----

  /** Two players locked to the same role cannot share a team. */
  predicate Apart(players: seq<Player>, i: nat, j: nat) {
    && i < |players| && j < |players| && i != j
    && players[i].lockedRole.Some? && players[i].lockedRole == players[j].lockedRole
  }

  predicate OnLane(p: Player) {
    p.lockedRole.Some? ==> p.lockedRole.value in LANES
  }

  ghost predicate RolesOnLanes(players: seq<Player>) {
    forall i :: 0 <= i < |players| ==> OnLane(players[i])
  }

  /** Each such pair is on different sides. */
  ghost predicate KeepsApart(players: seq<Player>, s: set<nat>) {
    forall i: nat, j: nat :: Apart(players, i, j) ==> (i in s <==> j !in s)
  }

  lemma TeamSeatsExactly(players: seq<Player>, s: set<nat>)
    requires s <= Below(|players|) && |s| == 5
    ensures SeatTeam(Team(players, Ascending(s, 0, |players|))).Some? <==>
      && (forall i :: i in s ==> OnLane(players[i]))
      && (forall i, j :: i in s && j in s ==> !Apart(players, i, j))
  {
    var c := Ascending(s, 0, |players|);
    AscendingEnumerates(s, |players|);
    IncreasingDistinct(c);
    TeamUnassignableExactly(Team(players, c));
    LanesOfTeam(players, s, c);
    PairsOfTeam(players, s, c);
  }

  lemma LanesOfTeam(players: seq<Player>, s: set<nat>, c: seq<nat>)
    requires |c| == 5 && Elements(c) == s && s <= Below(|players|) && forall i :: i in c ==> i < |players|
    ensures (forall i :: i in s ==> OnLane(players[i])) <==>
      !exists k :: 0 <= k < 5 && Team(players, c)[k].lockedRole.Some? && Team(players, c)[k].lockedRole.value !in LANES
  {
    var team := Team(players, c);
    forall k | 0 <= k < 5 ensures c[k] in s && team[k] == players[c[k]] {
      assert c[k] in Elements(c);
    }
    if forall k :: 0 <= k < 5 ==> OnLane(team[k]) {
      forall i | i in s ensures OnLane(players[i]) {
        var k :| 0 <= k < 5 && c[k] == i;
        assert OnLane(team[k]);
      }
    }
  }

  lemma PairsOfTeam(players: seq<Player>, s: set<nat>, c: seq<nat>)
    requires |c| == 5 && Distinct(c) && Elements(c) == s && s <= Below(|players|)
    requires forall i :: i in c ==> i < |players|
    ensures (forall i, j :: i in s && j in s ==> !Apart(players, i, j)) <==>
      !exists k, l :: 0 <= k < l < 5 && Team(players, c)[k].lockedRole.Some?
                      && Team(players, c)[k].lockedRole == Team(players, c)[l].lockedRole
  {
    var team := Team(players, c);
    if forall i, j :: i in s && j in s ==> !Apart(players, i, j) {
      forall k, l | 0 <= k < l < 5 && team[k].lockedRole.Some? ensures team[k].lockedRole != team[l].lockedRole {
        assert c[k] in Elements(c) && c[l] in Elements(c);
        assert !Apart(players, c[k], c[l]);
      }
    }
    if i, j :| i in s && j in s && Apart(players, i, j) {
      var k :| 0 <= k < 5 && c[k] == i;
      var l :| 0 <= l < 5 && c[l] == j;
      assert team[k].lockedRole.Some? && team[k].lockedRole == team[l].lockedRole;
      assert k < l || l < k;
    }
  }

  /** A half split can be evaluated exactly when it respects the side locks and splits every pair with a common
      role lock, and every role lock names a lane. */
  lemma EvaluatesExactly(players: seq<Player>, s: set<nat>, ctx: Context)
    requires |players| == 2 * TEAM_SIZE && HalfSplit(s, |players|)
    ensures SideOf(players, s, ctx).Some? <==>
      LockRespecting(players, s) && RolesOnLanes(players) && KeepsApart(players, s)
  {
    var m := Mirrored(s, |players|);
    MirroredHalf(s, |players|);
    SeatedEvaluates(players, s, ctx);
    TeamSeatsExactly(players, s);
    TeamSeatsExactly(players, m);
    BothSidesApart(players, s);
  }

  lemma BothSidesApart(players: seq<Player>, s: set<nat>)
    requires s <= Below(|players|)
    ensures RolesOnLanes(players) <==>
      && (forall i :: i in s ==> OnLane(players[i]))
      && (forall i :: i in Mirrored(s, |players|) ==> OnLane(players[i]))
    ensures KeepsApart(players, s) <==>
      && (forall i, j :: i in s && j in s ==> !Apart(players, i, j))
      && (forall i, j :: i in Mirrored(s, |players|) && j in Mirrored(s, |players|) ==> !Apart(players, i, j))
  {
    assert forall i: nat :: i < |players| ==> i in s || i in Mirrored(s, |players|);
    assert forall i :: i in Mirrored(s, |players|) ==> i !in s;
  }

  // ---- what is lost ----

  /** A split with player 0 on side B is lost exactly when somebody is locked to a side. */
  lemma LostExactly(players: seq<Player>, s: set<nat>, ctx: Context)
    requires |players| == 2 * TEAM_SIZE && HalfSplit(s, |players|) && SideOf(players, s, ctx).Some?
    ensures SideOf(players, Listed(s, |players|), ctx).Some? <==> 0 in s || NoSideLocks(players)
  {
    if 0 !in s {
      var m := Mirrored(s, |players|);
      MirroredHalf(s, |players|);
      EvaluatesExactly(players, s, ctx);
      EvaluatesExactly(players, m, ctx);
      MirrorKeepsApart(players, s);
      if NoSideLocks(players) {
        NoLocksRespect(players, m);
      } else {
        var i := SomeLocked(players);
        OneSideHolds(players, s, i);
      }
    }
  }

  lemma MirrorKeepsApart(players: seq<Player>, s: set<nat>)
    requires s <= Below(|players|)
    ensures KeepsApart(players, s) <==> KeepsApart(players, Mirrored(s, |players|))
  {
    assert forall i: nat :: i < |players| ==> (i in s <==> i !in Mirrored(s, |players|));
  }

  // ---- whether player 0 can sit on side B ----

  /** Players kept apart from someone in x. */
  ghost function PushedBy(players: seq<Player>, x: set<nat>): set<nat> {
    set i | i in Below(|players|) && exists j :: j in x && Apart(players, i, j)
  }

  /** Who must sit on side A when player 0 sits on side B. */
  ghost function MustA(players: seq<Player>): set<nat> {
    LockedTo(players, A) + PushedBy(players, LockedTo(players, B) + {0})
  }

  ghost function MustB(players: seq<Player>): set<nat> {
    LockedTo(players, B) + {0} + PushedBy(players, LockedTo(players, A))
  }

  ghost function Free(players: seq<Player>): set<nat> {
    Below(|players|) - MustA(players) - MustB(players)
  }

  /** The first and the second of each free pair with a common role lock: each side takes one of the two. */
  ghost function FreeFirst(players: seq<Player>): set<nat> {
    set i | i in Free(players) && exists j: nat :: i < j && Apart(players, i, j)
  }

  ghost function FreeSecond(players: seq<Player>): set<nat> {
    set j | j in Free(players) && exists i: nat :: i < j && Apart(players, i, j)
  }

  ghost predicate NoThreeAlike(players: seq<Player>) {
    forall i: nat, j: nat, k: nat :: Apart(players, i, j) && Apart(players, j, k) ==> i == k
  }

  /** Player 0 can sit on side B: role locks name lanes, no three players share one, nobody must sit on both
      sides, and neither side is overfull. */
  ghost predicate ZeroFitsB(players: seq<Player>) {
    && RolesOnLanes(players) && NoThreeAlike(players)
    && MustA(players) !! MustB(players)
    && |MustA(players) + FreeFirst(players)| <= TEAM_SIZE
    && |MustB(players) + FreeSecond(players)| <= TEAM_SIZE
  }

  /** Some lobby-wide side lock exists and player 0 can sit on side B. */
  ghost predicate LosesSplits(players: seq<Player>) {
    !NoSideLocks(players) && ZeroFitsB(players)
  }

  // ---- it is enough ----

  lemma FreePairsSplit(players: seq<Player>, i: nat, j: nat)
    requires NoThreeAlike(players) && |players| > 0 && Apart(players, i, j)
    ensures i in MustA(players) ==> j in MustB(players) || i in MustB(players)
    ensures i in MustB(players) ==> j in MustA(players)
    ensures i in Free(players) ==> j in Free(players)
  {
    assert Apart(players, j, i);
    PushedBack(players, LockedTo(players, A), i, j);
    PushedBack(players, LockedTo(players, B) + {0}, i, j);
    PushedBack(players, LockedTo(players, A), j, i);
    PushedBack(players, LockedTo(players, B) + {0}, j, i);
  }

  /** Whoever pushes i can only be j, the one player kept apart from it. */
  lemma PushedBack(players: seq<Player>, x: set<nat>, i: nat, j: nat)
    requires NoThreeAlike(players) && Apart(players, i, j)
    ensures i in PushedBy(players, x) <==> j in x
  {
    if i in PushedBy(players, x) {
      var k :| k in x && Apart(players, i, k);
      assert Apart(players, j, i);
      assert j == k;
    }
  }

  lemma ZeroFitsSplit(players: seq<Player>) returns (s: set<nat>)
    requires |players| == 2 * TEAM_SIZE && ZeroFitsB(players)
    ensures HalfSplit(s, |players|) && 0 !in s && LockRespecting(players, s) && KeepsApart(players, s)
  {
    var n := |players|;
    var low, out := MustA(players) + FreeFirst(players), MustB(players) + FreeSecond(players);
    SidesDisjoint(players);
    ComplementSize(out, n);
    s := SetBetween(low, Below(n) - out, TEAM_SIZE);
    LockedBetween(players, s);
    BetweenKeepsApart(players, s);
  }

  lemma SidesDisjoint(players: seq<Player>)
    requires |players| > 0 && NoThreeAlike(players) && MustA(players) !! MustB(players)
    ensures var low, out := MustA(players) + FreeFirst(players), MustB(players) + FreeSecond(players);
      && low <= Below(|players|) - out && out <= Below(|players|)
      && LockedTo(players, A) <= low && LockedTo(players, B) + {0} <= out
  {
    FirstsAreNotSeconds(players);
    assert MustA(players) <= Below(|players|) && MustB(players) <= Below(|players|);
    assert FreeFirst(players) <= Free(players) && FreeSecond(players) <= Free(players);
  }

  lemma FirstsAreNotSeconds(players: seq<Player>)
    requires NoThreeAlike(players)
    ensures FreeFirst(players) !! FreeSecond(players)
  {
    forall i | i in FreeFirst(players) ensures i !in FreeSecond(players) {
      var j: nat :| i < j && Apart(players, i, j);
      assert forall k: nat :: Apart(players, k, i) ==> k == j;
    }
  }

  lemma BetweenKeepsApart(players: seq<Player>, s: set<nat>)
    requires |players| > 0 && NoThreeAlike(players) && MustA(players) !! MustB(players)
    requires MustA(players) + FreeFirst(players) <= s && s !! MustB(players) + FreeSecond(players)
    ensures KeepsApart(players, s)
  {
    forall i: nat, j: nat | Apart(players, i, j) ensures i in s <==> j !in s {
      FreePairsSplit(players, i, j);
      assert Apart(players, j, i);
      FreePairsSplit(players, j, i);
      if i in Free(players) {
        assert i < j ==> i in FreeFirst(players) && j in FreeSecond(players);
        assert j < i ==> j in FreeFirst(players) && i in FreeSecond(players);
      }
    }
  }

  // ---- it is needed ----

  lemma ForcedSides(players: seq<Player>, s: set<nat>)
    requires |players| == 2 * TEAM_SIZE && s <= Below(|players|) && 0 !in s
    requires LockRespecting(players, s) && KeepsApart(players, s)
    ensures MustA(players) <= s && s !! MustB(players) && MustB(players) <= Below(|players|)
  {
    forall i | i in MustA(players) ensures i in s {
      if i in PushedBy(players, LockedTo(players, B) + {0}) {
        var j :| j in LockedTo(players, B) + {0} && Apart(players, i, j);
      }
    }
    forall i | i in MustB(players) ensures i !in s && i in Below(|players|) {
      if i in PushedBy(players, LockedTo(players, A)) {
        var j :| j in LockedTo(players, A) && Apart(players, i, j);
      }
    }
  }

  lemma ApartInTwos(players: seq<Player>, s: set<nat>)
    requires KeepsApart(players, s)
    ensures NoThreeAlike(players)
  {
    forall i: nat, j: nat, k: nat | Apart(players, i, j) && Apart(players, j, k) ensures i == k {
      assert i != k ==> Apart(players, i, k);
    }
  }

  /** The member of a pair that sits in s. */
  ghost function InSide(players: seq<Player>, s: set<nat>, i: nat): nat {
    if i !in s && exists j: nat :: Apart(players, i, j)
    then var j: nat :| Apart(players, i, j); j
    else i
  }

  lemma InSideSits(players: seq<Player>, s: set<nat>, i: nat)
    requires KeepsApart(players, s) && (i in s || exists j: nat :: Apart(players, i, j))
    ensures InSide(players, s, i) in s
    ensures InSide(players, s, i) == i || Apart(players, i, InSide(players, s, i))
  {
  }

  /** A side holds its forced players and one of each free pair, so it has room for them. */
  lemma RoomFor(players: seq<Player>, s: set<nat>, must: set<nat>, pairs: set<nat>)
    requires KeepsApart(players, s) && must <= s
    requires forall i :: i in pairs ==> exists j: nat :: Apart(players, i, j)
    requires forall i, j :: i in pairs && j in must + pairs ==> !Apart(players, i, j)
    ensures |must + pairs| <= |s|
  {
    var f := (i: nat) => InSide(players, s, i);
    forall i | i in must + pairs ensures f(i) in s && (f(i) == i || Apart(players, i, f(i))) {
      InSideSits(players, s, i);
    }
    forall i, j | i in must + pairs && j in must + pairs && i != j ensures f(i) != f(j) {
      InSideDiffers(players, s, must, pairs, i, j);
    }
    var image := ImageSize(must + pairs, f);
    SubsetSize(image, s);
  }

  lemma InSideDiffers(players: seq<Player>, s: set<nat>, must: set<nat>, pairs: set<nat>, i: nat, j: nat)
    requires KeepsApart(players, s) && must <= s
    requires forall i :: i in pairs ==> exists j: nat :: Apart(players, i, j)
    requires forall i, j :: i in pairs && j in must + pairs ==> !Apart(players, i, j)
    requires i in must + pairs && j in must + pairs && i != j
    ensures InSide(players, s, i) != InSide(players, s, j)
  {
    InSideSits(players, s, i);
    InSideSits(players, s, j);
    assert Apart(players, i, j) <==> Apart(players, j, i);
  }

  lemma FreeNotApart(players: seq<Player>, must: set<nat>)
    requires NoThreeAlike(players) && |players| > 0
    requires must == MustA(players) || must == MustB(players)
    ensures forall i, j :: i in FreeFirst(players) && j in must + FreeFirst(players) ==> !Apart(players, i, j)
    ensures forall i, j :: i in FreeSecond(players) && j in must + FreeSecond(players) ==> !Apart(players, i, j)
  {
    forall i, j | i in Free(players) && j in must ensures !Apart(players, i, j) {
      if Apart(players, i, j) {
        FreePairsSplit(players, i, j);
      }
    }
    FirstsAreNotSeconds(players);
    forall i, j | i in Free(players) && j in Free(players) && Apart(players, i, j)
      ensures i in FreeFirst(players) + FreeSecond(players)
      ensures i in FreeFirst(players) <==> j in FreeSecond(players)
      ensures i in FreeSecond(players) <==> j in FreeFirst(players)
    {
      assert Apart(players, j, i);
      assert i < j || j < i;
    }
  }

  lemma ZeroOnBFits(players: seq<Player>, s: set<nat>)
    requires |players| == 2 * TEAM_SIZE && HalfSplit(s, |players|) && 0 !in s
    requires LockRespecting(players, s) && RolesOnLanes(players) && KeepsApart(players, s)
    ensures ZeroFitsB(players)
  {
    var m := Mirrored(s, |players|);
    MirroredHalf(s, |players|);
    ForcedSides(players, s);
    ApartInTwos(players, s);
    MirrorKeepsApart(players, s);
    FreeNotApart(players, MustA(players));
    FreeNotApart(players, MustB(players));
    RoomFor(players, s, MustA(players), FreeFirst(players));
    forall i | i in FreeSecond(players) ensures exists j: nat :: Apart(players, i, j) {
      var j: nat :| j < i && Apart(players, j, i);
      assert Apart(players, i, j);
    }
    RoomFor(players, m, MustB(players), FreeSecond(players));
  }

  // ---- the exact condition ----

  /** For every lobby, whatever its side and role locks: the enumeration loses an evaluable split exactly when
      somebody is locked to a side and player 0 can sit on side B. */
  lemma LossExactly(players: seq<Player>, ctx: Context)
    requires |players| == 2 * TEAM_SIZE
    ensures !LosesSplits(players) <==>
      forall s :: HalfSplit(s, |players|) && SideOf(players, s, ctx).Some? ==>
        SideOf(players, Listed(s, |players|), ctx).Some?
  {
    if LosesSplits(players) {
      var s := ZeroFitsSplit(players);
      EvaluatesExactly(players, s, ctx);
      LostExactly(players, s, ctx);
    } else {
      forall s | HalfSplit(s, |players|) && SideOf(players, s, ctx).Some?
        ensures SideOf(players, Listed(s, |players|), ctx).Some?
      {
        LostExactly(players, s, ctx);
        EvaluatesExactly(players, s, ctx);
        if 0 !in s {
          ZeroOnBFits(players, s);
        }
      }
    }
  }

  /** Where nothing is lost the BALANCED candidate is optimal over all half splits in both orientations. */
  lemma BalancedIsOptimalUnlessLost(players: seq<Player>, ctx: Context, seed: Option<string>, s: set<nat>)
    requires |players| == 2 * TEAM_SIZE && DistinctUsers(players) && !LosesSplits(players)
    requires HalfSplit(s, |players|) && SideOf(players, s, ctx).Some?
    ensures BalancedAtMost(Present(PicksOf(players, ctx, Request([], [], seed))),
                           Score(SideOf(players, s, ctx).value.metrics, BalanceMode.BALANCED))
  {
    LossExactly(players, ctx);
    BalancedBeats(players, ctx, seed, s);
  }

  // ---- when there is no candidate at all ----

  function Opposite(side: Option<TeamSide>): (r: Option<TeamSide>) {
    match side
    case None => None
    case Some(A) => Some(B)
    case Some(B) => Some(A)
  }

  /** The lobby with every side lock turned around. */
  function Flipped(players: seq<Player>): (r: seq<Player>) {
    seq(|players|, (i: nat) requires i < |players| =>
      players[i].(lockedTeamSide := Opposite(players[i].lockedTeamSide)))
  }

  lemma FlippedSides(players: seq<Player>, s: set<nat>)
    requires s <= Below(|players|)
    ensures LockRespecting(players, s) <==> LockRespecting(Flipped(players), Mirrored(s, |players|))
  {
    forall i: nat | i < |players|
      ensures Flipped(players)[i].lockedTeamSide == Opposite(players[i].lockedTeamSide)
      ensures i in s <==> i !in Mirrored(s, |players|)
    {
    }
    if LockRespecting(Flipped(players), Mirrored(s, |players|)) {
      forall i: nat | i < |players| && players[i].lockedTeamSide.Some?
        ensures players[i].lockedTeamSide.value == A <==> i in s
      {
        assert Flipped(players)[i].lockedTeamSide.Some?;
      }
    }
  }

  lemma FlippedRoles(players: seq<Player>)
    ensures RolesOnLanes(players) <==> RolesOnLanes(Flipped(players))
    ensures forall i: nat, j: nat :: Apart(players, i, j) <==> Apart(Flipped(players), i, j)
  {
    forall i: nat | i < |players| ensures Flipped(players)[i].lockedRole == players[i].lockedRole {
    }
    if RolesOnLanes(Flipped(players)) {
      forall i: nat | i < |players| ensures OnLane(players[i]) {
        assert OnLane(Flipped(players)[i]);
      }
    }
  }

  lemma FlippedRespects(players: seq<Player>, s: set<nat>)
    requires s <= Below(|players|)
    ensures LockRespecting(players, s) <==> LockRespecting(Flipped(players), Mirrored(s, |players|))
    ensures RolesOnLanes(players) <==> RolesOnLanes(Flipped(players))
    ensures KeepsApart(players, s) <==> KeepsApart(Flipped(players), Mirrored(s, |players|))
  {
    FlippedSides(players, s);
    FlippedRoles(players);
    MirrorKeepsApart(players, s);
    assert KeepsApart(players, Mirrored(s, |players|)) <==> KeepsApart(Flipped(players), Mirrored(s, |players|));
  }

  /** Some evaluable split has player 0 on side A exactly when, with the side locks turned around, player 0 can
      sit on side B. */
  lemma ZeroOnAExactly(players: seq<Player>, ctx: Context)
    requires |players| == 2 * TEAM_SIZE
    ensures ZeroFitsB(Flipped(players)) <==>
      exists s :: HalfSplit(s, |players|) && 0 in s && SideOf(players, s, ctx).Some?
  {
    if ZeroFitsB(Flipped(players)) {
      var m := ZeroFitsSplit(Flipped(players));
      var s := Mirrored(m, |players|);
      MirroredHalf(m, |players|);
      FlippedRespects(players, s);
      EvaluatesExactly(players, s, ctx);
    }
    if s :| HalfSplit(s, |players|) && 0 in s && SideOf(players, s, ctx).Some? {
      MirroredHalf(s, |players|);
      EvaluatesExactly(players, s, ctx);
      FlippedRespects(players, s);
      ZeroOnBFits(Flipped(players), Mirrored(s, |players|));
    }
  }

  /** Without excluded ids there is no candidate exactly when the locks leave player 0 no place on side A. */
  lemma NoCandidateExactly(players: seq<Player>, ctx: Context, q: Request)
    requires |players| == 2 * TEAM_SIZE && q.excludedIds == []
    ensures Present(PicksOf(players, ctx, q)) == [] <==> !ZeroFitsB(Flipped(players))
  {
    AllOrNothing(players, ctx, q);
    ZeroOnAExactly(players, ctx);
  }

  // ---- special lobbies ----

  /** Some role lock names no lane, or two players are locked to the same seat. */
  ghost predicate SeatClash(players: seq<Player>) {
    || !RolesOnLanes(players)
    || exists i: nat, j: nat :: Apart(players, i, j) && players[i].lockedTeamSide == players[j].lockedTeamSide
  }

  /** Where role locks come with side locks, as for the players locked in a match, only LocksCover or a seat
      clash saves every split. */
  lemma PairedLocksLose(players: seq<Player>)
    requires |players| == 2 * TEAM_SIZE
    requires forall p :: p in players && p.lockedRole.Some? ==> p.lockedTeamSide.Some?
    ensures LosesSplits(players) <==> !LocksCover(players) && !SeatClash(players)
  {
    forall i: nat | i < |players| && players[i].lockedRole.Some? ensures players[i].lockedTeamSide.Some? {
      assert players[i] in players;
    }
    if !SeatClash(players) && players[0].lockedTeamSide != Some(A) {
      NoClashNoPush(players);
    }
    if ZeroFitsB(players) {
      FittingIsClashFree(players);
    }
  }

  lemma NoClashNoPush(players: seq<Player>)
    requires |players| == 2 * TEAM_SIZE && !SeatClash(players) && players[0].lockedTeamSide != Some(A)
    requires forall i: nat :: i < |players| && players[i].lockedRole.Some? ==> players[i].lockedTeamSide.Some?
    ensures MustA(players) == LockedTo(players, A) && MustB(players) == LockedTo(players, B) + {0}
    ensures MustA(players) !! MustB(players) && NoThreeAlike(players)
    ensures FreeFirst(players) == {} && FreeSecond(players) == {}
  {
    forall i: nat, j: nat | Apart(players, i, j)
      ensures players[i].lockedTeamSide == Some(A) <==> players[j].lockedTeamSide == Some(B)
      ensures players[i].lockedTeamSide == Some(A) || players[i].lockedTeamSide == Some(B)
    {
      assert players[i].lockedTeamSide.value == A || players[i].lockedTeamSide.value == B;
      assert players[j].lockedTeamSide.value == A || players[j].lockedTeamSide.value == B;
    }
    assert MustA(players) == LockedTo(players, A);
    assert MustB(players) == LockedTo(players, B) + {0};
    forall i: nat, j: nat | Apart(players, i, j) ensures i !in Free(players) {
      assert i in LockedTo(players, A) + LockedTo(players, B);
    }
    forall i: nat, j: nat, k: nat | Apart(players, i, j) && Apart(players, j, k) ensures i == k {
      assert i != k ==> Apart(players, i, k);
    }
  }

  lemma FittingIsClashFree(players: seq<Player>)
    requires |players| == 2 * TEAM_SIZE && ZeroFitsB(players)
    requires forall i: nat :: i < |players| && players[i].lockedRole.Some? ==> players[i].lockedTeamSide.Some?
    ensures !SeatClash(players) && players[0].lockedTeamSide != Some(A)
    ensures |LockedTo(players, A)| <= TEAM_SIZE && |LockedTo(players, B) + {0}| <= TEAM_SIZE
  {
    var s := ZeroFitsSplit(players);
    LockedFit(players, s);
    forall i: nat, j: nat | Apart(players, i, j) ensures players[i].lockedTeamSide != players[j].lockedTeamSide {
      assert i in s <==> j !in s;
      assert players[i].lockedTeamSide.Some? && players[j].lockedTeamSide.Some?;
    }
  }

  /** Without role locks the condition is LocksCover alone. */
  lemma RoleUnlockedLose(players: seq<Player>)
    requires |players| == 2 * TEAM_SIZE && NoRoleLocks(players)
    ensures LosesSplits(players) <==> !LocksCover(players)
  {
    forall i | 0 <= i < |players| ensures players[i].lockedRole.None? {
      assert players[i] in players;
    }
    PairedLocksLose(players);
  }
}
