/** What the generated candidates promise: optimal splits, honoured locks, sound exclusions. */
module BalancerOptimality {
  import opened Balancer
  import opened Combinations
  import opened Domain
  import opened Prelude
  import opened TeamMetrics

  // ---- splits as sets of player indices ----

  ghost predicate HalfSplit(s: set<nat>, n: nat) {
    s <= Below(n) && |s| == TEAM_SIZE
  }

  function Mirrored(s: set<nat>, n: nat): (r: set<nat>) {
    Below(n) - s
  }

  /** The orientation the enumeration lists. */
  function Listed(s: set<nat>, n: nat): (r: set<nat>) {
    if 0 in s then s else Mirrored(s, n)
  }

  /** The evaluated split whose side A is s. */
  function SideOf(players: seq<Player>, s: set<nat>, ctx: Context): (r: Option<Split>)
    requires |players| == 2 * TEAM_SIZE
  {
    SplitAt(players, Ascending(s, 0, |players|), ctx)
  }

  lemma MirroredHalf(s: set<nat>, n: nat)
    requires n == 2 * TEAM_SIZE && HalfSplit(s, n)
    ensures HalfSplit(Mirrored(s, n), n) && Mirrored(Mirrored(s, n), n) == s && (0 in s <==> 0 !in Mirrored(s, n))
  {
    BelowSize(n);
    assert Below(n) == s + Mirrored(s, n);
    assert 0 in Below(n);
  }

  lemma OthersAreMirrored(s: set<nat>, n: nat)
    requires HalfSplit(s, n)
    ensures Others(Ascending(s, 0, n), n) == Ascending(Mirrored(s, n), 0, n)
  {
    AscendingEnumerates(s, n);
  }

  lemma HalvesDistinct(s: set<nat>, n: nat) returns (e: seq<nat>)
    requires s <= Below(n)
    ensures e == Ascending(s, 0, n) + Ascending(Mirrored(s, n), 0, n)
    ensures Distinct(e) && forall i :: i in e ==> i < n
  {
    var c, d := Ascending(s, 0, n), Ascending(Mirrored(s, n), 0, n);
    AscendingEnumerates(s, n);
    AscendingEnumerates(Mirrored(s, n), n);
    IncreasingDistinct(c);
    IncreasingDistinct(d);
    e := c + d;
    forall i, j | 0 <= i < j < |e| ensures e[i] != e[j] {
      if i < |c| <= j {
        assert e[i] in Elements(c) && e[j] in Elements(d);
      }
    }
  }

  lemma TeamsDistinct(players: seq<Player>, s: set<nat>)
    requires DistinctUsers(players) && s <= Below(|players|)
    ensures var n := |players|;
      DistinctUsers(Team(players, Ascending(s, 0, n)) + Team(players, Ascending(Mirrored(s, n), 0, n)))
  {
    var n := |players|;
    var e := HalvesDistinct(s, n);
    var t := Team(players, Ascending(s, 0, n)) + Team(players, Ascending(Mirrored(s, n), 0, n));
    forall i, j | 0 <= i < j < |t| ensures t[i].userId != t[j].userId {
      assert e[i] in e && e[j] in e;
      assert t[i] == players[e[i]] && t[j] == players[e[j]];
    }
  }

  // ---- locks ----

  ghost predicate NoSideLocks(players: seq<Player>) {
    forall p :: p in players ==> p.lockedTeamSide.None?
  }

  ghost predicate LockRespecting(players: seq<Player>, s: set<nat>) {
    forall i: nat :: i < |players| && players[i].lockedTeamSide.Some? ==>
      (players[i].lockedTeamSide.value == A <==> i in s)
  }

  lemma TeamMayPlay(players: seq<Player>, s: set<nat>, side: TeamSide)
    requires s <= Below(|players|)
    ensures (forall p :: p in Team(players, Ascending(s, 0, |players|)) ==> MayPlayOn(p, side)) <==>
            forall i :: i in s ==> MayPlayOn(players[i], side)
  {
    var c := Ascending(s, 0, |players|);
    var team := Team(players, c);
    if forall p :: p in team ==> MayPlayOn(p, side) {
      forall i | i in s ensures MayPlayOn(players[i], side) {
        assert i in c;
        var k :| 0 <= k < |c| && c[k] == i;
        assert team[k] in team;
      }
    }
    if forall i :: i in s ==> MayPlayOn(players[i], side) {
      forall p | p in team ensures MayPlayOn(p, side) {
        var k :| 0 <= k < |team| && team[k] == p;
        assert c[k] in c;
      }
    }
  }

  lemma RespectsExactly(players: seq<Player>, s: set<nat>)
    requires HalfSplit(s, |players|)
    ensures RespectsLockedTeams(Team(players, Ascending(s, 0, |players|)),
                                Team(players, Ascending(Mirrored(s, |players|), 0, |players|)))
       <==> LockRespecting(players, s)
  {
    TeamMayPlay(players, s, A);
    TeamMayPlay(players, Mirrored(s, |players|), B);
    MayPlayExactly(players, s);
  }

  lemma MayPlayExactly(players: seq<Player>, s: set<nat>)
    requires s <= Below(|players|)
    ensures LockRespecting(players, s) <==>
      && (forall i :: i in s ==> MayPlayOn(players[i], A))
      && (forall i :: i in Mirrored(s, |players|) ==> MayPlayOn(players[i], B))
  {
    assert forall i: nat :: i < |players| ==> i in s || i in Mirrored(s, |players|);
  }

  ghost function LockedTo(players: seq<Player>, side: TeamSide): set<nat> {
    set i | i in Below(|players|) && players[i].lockedTeamSide == Some(side)
  }

  /** When the enumeration, which lists only splits with player 0 on side A, misses no lock-respecting
      split up to exchanging the sides. */
  ghost predicate LocksCover(players: seq<Player>)
    requires |players| == 2 * TEAM_SIZE
  {
    || NoSideLocks(players)
    || players[0].lockedTeamSide == Some(A)
    || |LockedTo(players, A)| > TEAM_SIZE
    || |LockedTo(players, B) + {0}| > TEAM_SIZE
  }

  lemma {:induction false} SetBetween(low: set<nat>, high: set<nat>, k: nat) returns (s: set<nat>)
    requires low <= high && |low| <= k <= |high|
    ensures low <= s <= high && |s| == k
    decreases k - |low|
  {
    if |low| == k {
      s := low;
    } else {
      assert high == low + (high - low);
      assert |high - low| > 0;
      var x :| x in high - low;
      SubsetSize(low + {x}, high);
      s := SetBetween(low + {x}, high, k);
    }
  }

  lemma NoLocksRespect(players: seq<Player>, s: set<nat>)
    requires NoSideLocks(players)
    ensures LockRespecting(players, s)
  {
    forall i: nat | i < |players| ensures players[i].lockedTeamSide.None? {
      assert players[i] in players;
    }
  }

  lemma LockedFit(players: seq<Player>, s: set<nat>)
    requires HalfSplit(s, |players|) && LockRespecting(players, s) && |players| == 2 * TEAM_SIZE && 0 !in s
    ensures |LockedTo(players, A)| <= TEAM_SIZE && |LockedTo(players, B) + {0}| <= TEAM_SIZE
    ensures players[0].lockedTeamSide != Some(A)
  {
    MirroredHalf(s, |players|);
    SubsetSize(LockedTo(players, A), s);
    SubsetSize(LockedTo(players, B) + {0}, Mirrored(s, |players|));
  }

  lemma ListedRespects(players: seq<Player>, s: set<nat>)
    requires |players| == 2 * TEAM_SIZE && HalfSplit(s, |players|) && LockRespecting(players, s) && LocksCover(players)
    ensures LockRespecting(players, Listed(s, |players|))
  {
    if 0 !in s {
      LockedFit(players, s);
      NoLocksRespect(players, Mirrored(s, |players|));
    }
  }

  /** The symmetry reduction is sound exactly under LocksCover: otherwise some lock-respecting split
      has neither orientation listed and allowed. */
  lemma CoverageExactly(players: seq<Player>)
    requires |players| == 2 * TEAM_SIZE
    ensures LocksCover(players) <==>
      forall s :: HalfSplit(s, |players|) && LockRespecting(players, s) ==>
        LockRespecting(players, Listed(s, |players|))
  {
    if LocksCover(players) {
      forall s | HalfSplit(s, |players|) && LockRespecting(players, s)
        ensures LockRespecting(players, Listed(s, |players|)) {
        ListedRespects(players, s);
      }
    } else {
      var s := MissedSplit(players);
    }
  }

  lemma MissedSplit(players: seq<Player>) returns (s: set<nat>)
    requires |players| == 2 * TEAM_SIZE && !LocksCover(players)
    ensures HalfSplit(s, |players|) && LockRespecting(players, s) && !LockRespecting(players, Listed(s, |players|))
  {
    var n := |players|;
    var low, out := LockedTo(players, A), LockedTo(players, B) + {0};
    ComplementSize(out, n);
    s := SetBetween(low, Below(n) - out, TEAM_SIZE);
    LockedBetween(players, s);
    var i := SomeLocked(players);
    OneSideHolds(players, s, i);
  }

  lemma SomeLocked(players: seq<Player>) returns (i: nat)
    requires !NoSideLocks(players)
    ensures i < |players| && players[i].lockedTeamSide.Some?
  {
    var p :| p in players && p.lockedTeamSide.Some?;
    i :| 0 <= i < |players| && players[i] == p;
  }

  /** A locked player tells a split from its mirror image. */
  lemma OneSideHolds(players: seq<Player>, s: set<nat>, i: nat)
    requires i < |players| && players[i].lockedTeamSide.Some? && LockRespecting(players, s)
    ensures !LockRespecting(players, Mirrored(s, |players|))
  {
    assert i in s <==> i !in Mirrored(s, |players|);
  }

  lemma LockedBetween(players: seq<Player>, s: set<nat>)
    requires LockedTo(players, A) <= s && s !! LockedTo(players, B)
    ensures LockRespecting(players, s)
  {
    forall i: nat | i < |players| && players[i].lockedTeamSide.Some?
      ensures players[i].lockedTeamSide.value == A <==> i in s
    {
      assert i in LockedTo(players, players[i].lockedTeamSide.value);
    }
  }

  lemma ComplementSize(s: set<nat>, n: nat)
    requires s <= Below(n)
    ensures |Below(n) - s| == n - |s|
  {
    BelowSize(n);
    assert Below(n) == s + (Below(n) - s);
  }

  // ---- the listed splits ----

  lemma {:induction false} SplitListMembers(players: seq<Player>, combinations: seq<seq<nat>>, ctx: Context, sp: Split)
    requires InRange(combinations, |players|)
    ensures sp in SplitList(players, combinations, ctx) <==>
      exists c :: c in combinations && SplitAt(players, c, ctx) == Some(sp)
  {
    if combinations == [] {
    } else {
      assert combinations[0] in combinations;
      SplitListMembers(players, combinations[1..], ctx, sp);
    }
  }

  /** The listed splits are exactly the evaluated half splits with player 0 on side A. */
  lemma SplitsExactly(players: seq<Player>, ctx: Context, sp: Split)
    requires |players| == 2 * TEAM_SIZE
    ensures sp in SplitsOf(players, ctx) <==>
      exists s :: HalfSplit(s, |players|) && 0 in s && SideOf(players, s, ctx) == Some(sp)
  {
    var combinations := WithPlayerZero(Completions([], 0, |players|, TEAM_SIZE));
    AllCombinations(|players|, TEAM_SIZE);
    HalfSplitsInRange(|players|);
    SplitListMembers(players, combinations, ctx, sp);
    if sp in SplitsOf(players, ctx) {
      var c :| c in combinations && SplitAt(players, c, ctx) == Some(sp);
      CombinationIsHalfSplit(c, |players|);
      assert HalfSplit(Elements(c), |players|) && 0 in Elements(c) && SideOf(players, Elements(c), ctx) == Some(sp);
    }
    if s :| HalfSplit(s, |players|) && 0 in s && SideOf(players, s, ctx) == Some(sp) {
      AscendingEnumerates(s, |players|);
      assert Ascending(s, 0, |players|) in combinations;
    }
  }

  lemma CombinationIsHalfSplit(c: seq<nat>, n: nat)
    requires IsCombination(c, n, TEAM_SIZE)
    ensures HalfSplit(Elements(c), n) && Ascending(Elements(c), 0, n) == c
  {
    IncreasingDistinct(c);
    DistinctSize(c);
    assert Elements(c) <= Below(n);
    AscendingEnumerates(Elements(c), n);
    IncreasingDetermined(Ascending(Elements(c), 0, n), c);
  }

  /** Exchanging the sides of a split exchanges its teams and changes no metric. */
  lemma MirrorEvaluates(players: seq<Player>, s: set<nat>, ctx: Context)
    requires |players| == 2 * TEAM_SIZE && DistinctUsers(players) && HalfSplit(s, |players|)
    requires LockRespecting(players, s) && LockRespecting(players, Mirrored(s, |players|))
    ensures var here, there := SideOf(players, s, ctx), SideOf(players, Mirrored(s, |players|), ctx);
      && (here.Some? <==> there.Some?)
      && (here.Some? ==>
            && there.value.teamA == here.value.teamB && there.value.teamB == here.value.teamA
            && there.value.metrics == here.value.metrics)
  {
    MirroredHalf(s, |players|);
    OthersAreMirrored(s, |players|);
    OthersAreMirrored(Mirrored(s, |players|), |players|);
    RespectsExactly(players, s);
    RespectsExactly(players, Mirrored(s, |players|));
    TeamsDistinct(players, s);
    MirrorSplit(Team(players, Ascending(s, 0, |players|)),
                Team(players, Ascending(Mirrored(s, |players|), 0, |players|)), ctx);
  }

  lemma MirrorSplit(teamA: seq<Player>, teamB: seq<Player>, ctx: Context)
    requires DistinctUsers(teamA + teamB) && RespectsLockedTeams(teamA, teamB) && RespectsLockedTeams(teamB, teamA)
    ensures var here, there := SplitOf(teamA, teamB, ctx), SplitOf(teamB, teamA, ctx);
      && (here.Some? <==> there.Some?)
      && (here.Some? ==>
            && there.value.teamA == here.value.teamB && there.value.teamB == here.value.teamA
            && there.value.metrics == here.value.metrics)
  {
    var a, b := SeatTeam(teamA), SeatTeam(teamB);
    if a.Some? && b.Some? {
      EvaluateSymmetric(teamA, teamB, a.value.seats, b.value.seats, ctx.history, ctx.sqrt);
    }
  }

  lemma SideRespectsLocks(players: seq<Player>, s: set<nat>, ctx: Context)
    requires |players| == 2 * TEAM_SIZE && HalfSplit(s, |players|)
    ensures SideOf(players, s, ctx).Some? ==> LockRespecting(players, s)
  {
    OthersAreMirrored(s, |players|);
    RespectsExactly(players, s);
  }

  ghost predicate NoRoleLocks(players: seq<Player>) {
    forall p :: p in players ==> p.lockedRole.None?
  }

  lemma TeamSeated(players: seq<Player>, s: set<nat>)
    requires NoRoleLocks(players) && s <= Below(|players|) && |s| == 5
    ensures SeatTeam(Team(players, Ascending(s, 0, |players|))).Some?
  {
    AscendingEnumerates(s, |players|);
    var c := Ascending(s, 0, |players|);
    var team := Team(players, c);
    forall i | 0 <= i < 5 ensures team[i].lockedRole.None? {
      assert c[i] in c && team[i] in players;
    }
    TeamUnassignableExactly(team);
  }

  /** A half split can be evaluated exactly when it respects the side locks and both teams can be seated. */
  lemma SeatedEvaluates(players: seq<Player>, s: set<nat>, ctx: Context)
    requires |players| == 2 * TEAM_SIZE && HalfSplit(s, |players|)
    ensures SideOf(players, s, ctx).Some? <==>
      && LockRespecting(players, s)
      && SeatTeam(Team(players, Ascending(s, 0, |players|))).Some?
      && SeatTeam(Team(players, Ascending(Mirrored(s, |players|), 0, |players|))).Some?
  {
    var a := Team(players, Ascending(s, 0, |players|));
    var b := Team(players, Ascending(Mirrored(s, |players|), 0, |players|));
    OthersAreMirrored(s, |players|);
    assert SideOf(players, s, ctx) == SplitOf(a, b, ctx);
    EvaluableExactly(a, b, ctx);
    RespectsExactly(players, s);
  }

  /** Without role locks a half split can be evaluated exactly when it respects the side locks. */
  lemma RoleUnlockedEvaluates(players: seq<Player>, s: set<nat>, ctx: Context)
    requires |players| == 2 * TEAM_SIZE && NoRoleLocks(players) && HalfSplit(s, |players|)
    ensures SideOf(players, s, ctx).Some? <==> LockRespecting(players, s)
  {
    MirroredHalf(s, |players|);
    TeamSeated(players, s);
    TeamSeated(players, Mirrored(s, |players|));
    SeatedEvaluates(players, s, ctx);
  }

  lemma EvaluableExactly(teamA: seq<Player>, teamB: seq<Player>, ctx: Context)
    ensures SplitOf(teamA, teamB, ctx).Some? <==>
      RespectsLockedTeams(teamA, teamB) && SeatTeam(teamA).Some? && SeatTeam(teamB).Some?
  {
  }

  /** Under LocksCover every evaluable split is evaluable in its listed orientation. */
  lemma CoveredIsListed(players: seq<Player>, s: set<nat>, ctx: Context)
    requires |players| == 2 * TEAM_SIZE && DistinctUsers(players) && LocksCover(players)
    requires HalfSplit(s, |players|) && SideOf(players, s, ctx).Some?
    ensures SideOf(players, Listed(s, |players|), ctx).Some?
  {
    SideRespectsLocks(players, s, ctx);
    ListedRespects(players, s);
    if 0 !in s {
      MirrorEvaluates(players, s, ctx);
    }
  }

  /** A split that can be evaluated in both orientations is listed with the same metrics. */
  lemma ListedEvaluates(players: seq<Player>, s: set<nat>, ctx: Context)
    requires |players| == 2 * TEAM_SIZE && DistinctUsers(players) && HalfSplit(s, |players|)
    requires SideOf(players, s, ctx).Some? && SideOf(players, Listed(s, |players|), ctx).Some?
    ensures SideOf(players, Listed(s, |players|), ctx).value in SplitsOf(players, ctx)
    ensures SideOf(players, Listed(s, |players|), ctx).value.metrics == SideOf(players, s, ctx).value.metrics
  {
    MirroredHalf(s, |players|);
    if 0 !in s {
      SideRespectsLocks(players, s, ctx);
      SideRespectsLocks(players, Mirrored(s, |players|), ctx);
      MirrorEvaluates(players, s, ctx);
    }
    SplitsExactly(players, ctx, SideOf(players, Listed(s, |players|), ctx).value);
  }

  // ---- ranking and choice ----

  lemma {:induction false} OffersMembers(splits: seq<Split>, mode: BalanceMode, no: nat, ids: seq<string>, c: Candidate)
    ensures c in Offers(splits, mode, no, ids) <==>
      c.candidateId !in ids && exists s :: s in splits && CandidateOf(s, mode, no) == c
  {
    if splits == [] {
    } else {
      OffersMembers(splits[1..], mode, no, ids, c);
    }
  }

  ghost predicate InOrder(cs: seq<Candidate>, mode: BalanceMode, seed: Option<string>) {
    forall i, j :: 0 <= i < j < |cs| ==> NotAfter(cs[i], cs[j], mode, seed)
  }

  lemma {:induction false} InsertKeepsOrder(x: Candidate, ys: seq<Candidate>, mode: BalanceMode, seed: Option<string>)
    requires InOrder(ys, mode, seed)
    ensures InOrder(Insert(x, ys, mode, seed), mode, seed)
    ensures forall c :: c in Insert(x, ys, mode, seed) <==> c == x || c in ys
  {
    if ys != [] && !NotAfter(x, ys[0], mode, seed) {
      InsertKeepsOrder(x, ys[1..], mode, seed);
      var rest := Insert(x, ys[1..], mode, seed);
      forall j | 0 <= j < |rest| ensures NotAfter(ys[0], rest[j], mode, seed) {
        assert rest[j] in rest;
      }
    }
  }

  /** Ranking keeps the candidates and puts them in comparator order. */
  lemma {:induction false} RankedInOrder(xs: seq<Candidate>, mode: BalanceMode, seed: Option<string>)
    ensures InOrder(Ranked(xs, mode, seed), mode, seed)
    ensures forall c :: c in Ranked(xs, mode, seed) <==> c in xs
  {
    if xs == [] {
    } else {
      RankedInOrder(xs[1..], mode, seed);
      InsertKeepsOrder(xs[0], Ranked(xs[1..], mode, seed), mode, seed);
    }
  }

  lemma {:induction false} FirstUnusedIsFirst(ranked: seq<Candidate>, used: set<string>, mode: BalanceMode,
                                              seed: Option<string>)
    requires InOrder(ranked, mode, seed)
    ensures var r := FirstUnused(ranked, used);
      if r.Some? then
        && r.value in ranked && r.value.combinationKey !in used
        && forall c :: c in ranked && c.combinationKey !in used ==> NotAfter(r.value, c, mode, seed)
      else forall c :: c in ranked ==> c.combinationKey in used
  {
    if ranked != [] && ranked[0].combinationKey in used {
      FirstUnusedIsFirst(ranked[1..], used, mode, seed);
    }
  }

  /** The contract of one choice: best among the unused offers, or best of all when every key is used. */
  ghost predicate GoodChoice(offers: seq<Candidate>, used: set<string>, mode: BalanceMode, seed: Option<string>,
                             p: Option<Candidate>)
  {
    && (p.None? <==> offers == [])
    && (p.Some? ==>
          && p.value in offers
          && (p.value.combinationKey in used ==> forall c :: c in offers ==> c.combinationKey in used)
          && forall c :: c in offers && (c.combinationKey !in used || p.value.combinationKey in used)
                         ==> NotAfter(p.value, c, mode, seed))
  }

  lemma PickIsGood(offers: seq<Candidate>, used: set<string>, mode: BalanceMode, seed: Option<string>)
    ensures GoodChoice(offers, used, mode, seed, Pick(Ranked(offers, mode, seed), used))
  {
    var ranked := Ranked(offers, mode, seed);
    RankedInOrder(offers, mode, seed);
    FirstUnusedIsFirst(ranked, used, mode, seed);
    assert offers != [] ==> offers[0] in ranked;
    assert ranked != [] ==> ranked[0] in offers;
    forall c | c in ranked ensures NotAfter(ranked[0], c, mode, seed) {
      var i :| 0 <= i < |ranked| && ranked[i] == c;
    }
  }

  /** Keys taken by earlier choices. */
  ghost function UsedBefore(used: set<string>, ps: seq<Option<Candidate>>): set<string>
    decreases ps
  {
    if ps == [] then used else UsedBefore(WithKey(used, ps[0]), ps[1..])
  }

  /** Whether a choice for mode number k is good, given the keys used before it. */
  ghost function GoodFor(splits: seq<Split>, ids: seq<string>, seed: Option<string>)
    : ((nat, set<string>, Option<Candidate>) -> bool)
  {
    (k: nat, used: set<string>, p: Option<Candidate>) =>
      k < 3 && GoodChoice(Offers(splits, MODES[k], k + 1, ids), used, MODES[k], seed, p)
  }

  /** Every one of the choices passes, given the keys taken before it. */
  ghost predicate AllPass(good: (nat, set<string>, Option<Candidate>) -> bool, index: nat, used: set<string>,
                          ps: seq<Option<Candidate>>)
    decreases ps
  {
    ps == [] || (good(index, used, ps[0]) && AllPass(good, index + 1, WithKey(used, ps[0]), ps[1..]))
  }

  lemma {:induction false} PassAt(good: (nat, set<string>, Option<Candidate>) -> bool, index: nat, used: set<string>,
                                  ps: seq<Option<Candidate>>, j: nat)
    requires j < |ps| && AllPass(good, index, used, ps)
    ensures good(index + j, UsedBefore(used, ps[..j]), ps[j])
    decreases j
  {
    if j == 0 {
    } else {
      PassAt(good, index + 1, WithKey(used, ps[0]), ps[1..], j - 1);
      assert ps[..j][1..] == ps[1..][..j - 1];
      assert index + 1 + (j - 1) == index + j;
    }
  }

  lemma {:induction false} PicksPass(splits: seq<Split>, index: nat, ids: seq<string>, used: set<string>,
                                     seed: Option<string>)
    requires index <= 3
    ensures AllPass(GoodFor(splits, ids, seed), index, used, Picks(splits, index, ids, used, seed))
    decreases 3 - index
  {
    if index == 3 {
    } else {
      var ps := Picks(splits, index, ids, used, seed);
      PicksStep(splits, index, ids, used, seed);
      PickPasses(splits, index, ids, used, seed);
      PicksPass(splits, index + 1, ids, WithKey(used, ps[0]), seed);
      PassNext(GoodFor(splits, ids, seed), index, used, ps);
    }
  }

  lemma PicksStep(splits: seq<Split>, index: nat, ids: seq<string>, used: set<string>, seed: Option<string>)
    requires index < 3
    ensures var ps := Picks(splits, index, ids, used, seed);
      && ps[0] == Pick(Ranked(Offers(splits, MODES[index], index + 1, ids), MODES[index], seed), used)
      && ps[1..] == Picks(splits, index + 1, ids, WithKey(used, ps[0]), seed)
  {
  }

  lemma PickPasses(splits: seq<Split>, index: nat, ids: seq<string>, used: set<string>, seed: Option<string>)
    requires index < 3
    ensures GoodFor(splits, ids, seed)(
      index, used, Pick(Ranked(Offers(splits, MODES[index], index + 1, ids), MODES[index], seed), used))
  {
    PickIsGood(Offers(splits, MODES[index], index + 1, ids), used, MODES[index], seed);
  }

  lemma PassNext(good: (nat, set<string>, Option<Candidate>) -> bool, index: nat, used: set<string>,
                 ps: seq<Option<Candidate>>)
    requires ps != [] && good(index, used, ps[0]) && AllPass(good, index + 1, WithKey(used, ps[0]), ps[1..])
    ensures AllPass(good, index, used, ps)
  {
  }

  /** Every choice is the best of the unused offers of its mode, or of all its offers when none is unused. */
  lemma PicksAreGood(splits: seq<Split>, ids: seq<string>, used: set<string>, seed: Option<string>, j: nat)
    requires j < 3
    ensures var ps := Picks(splits, 0, ids, used, seed);
      GoodChoice(Offers(splits, MODES[j], j + 1, ids), UsedBefore(used, ps[..j]), MODES[j], seed, ps[j])
  {
    PicksPass(splits, 0, ids, used, seed);
    PassAt(GoodFor(splits, ids, seed), 0, used, Picks(splits, 0, ids, used, seed), j);
  }

  lemma SplitIsOffered(splits: seq<Split>, mode: BalanceMode, no: nat, sp: Split)
    requires sp in splits
    ensures CandidateOf(sp, mode, no) in Offers(splits, mode, no, [])
  {
    OffersMembers(splits, mode, no, [], CandidateOf(sp, mode, no));
  }

  lemma OfferIsScored(splits: seq<Split>, mode: BalanceMode, no: nat, c: Candidate)
    requires c in Offers(splits, mode, no, [])
    ensures c.mode == mode && c.candidateNo == no && c.score == Score(c.split.metrics, mode)
  {
    OffersMembers(splits, mode, no, [], c);
  }

  lemma GoodChoiceBeats(offers: seq<Candidate>, used: set<string>, mode: BalanceMode, seed: Option<string>,
                        p: Option<Candidate>, offer: Candidate)
    requires GoodChoice(offers, used, mode, seed, p) && offer in offers
    ensures p.Some? && p.value in offers && (offer.combinationKey !in used ==> p.value.score <= offer.score)
  {
    if offer.combinationKey !in used {
      assert NotAfter(p.value, offer, mode, seed);
    }
  }

  /** The choice of mode number j does not lose to an unused listed split. */
  lemma ChoiceBeatsListed(splits: seq<Split>, used: set<string>, seed: Option<string>, j: nat, sp: Split)
    requires j < 3 && sp in splits
    ensures var ps := Picks(splits, 0, [], used, seed);
      && ps[j].Some? && ps[j].value.mode == MODES[j]
      && ps[j].value.score == Score(ps[j].value.split.metrics, MODES[j])
      && (CombinationKey(sp.teamA) !in UsedBefore(used, ps[..j]) ==> ps[j].value.score <= Score(sp.metrics, MODES[j]))
  {
    var ps, offer := Picks(splits, 0, [], used, seed), CandidateOf(sp, MODES[j], j + 1);
    PicksAreGood(splits, [], used, seed, j);
    SplitIsOffered(splits, MODES[j], j + 1, sp);
    GoodChoiceBeats(Offers(splits, MODES[j], j + 1, []), UsedBefore(used, ps[..j]), MODES[j], seed, ps[j], offer);
    OfferIsScored(splits, MODES[j], j + 1, ps[j].value);
  }

  // ---- main results ----

  /** Optimality of each mode's choice: against every half split that is evaluable as listed, when its listed
      key was not used before. */
  lemma ChoiceBeats(players: seq<Player>, ctx: Context, q: Request, j: nat, s: set<nat>)
    requires |players| == 2 * TEAM_SIZE && DistinctUsers(players) && q.excludedIds == [] && j < 3
    requires HalfSplit(s, |players|) && SideOf(players, s, ctx).Some?
    requires SideOf(players, Listed(s, |players|), ctx).Some?
    ensures var ps := PicksOf(players, ctx, q);
      var key := CombinationKey(SideOf(players, Listed(s, |players|), ctx).value.teamA);
      && ps[j].Some? && ps[j].value.mode == MODES[j]
      && ps[j].value.score == Score(ps[j].value.split.metrics, MODES[j])
      && (key !in UsedBefore(Elements(q.excludedKeys), ps[..j]) ==>
            ps[j].value.score <= Score(SideOf(players, s, ctx).value.metrics, MODES[j]))
  {
    ListedEvaluates(players, s, ctx);
    ChoiceBeatsListed(SplitsOf(players, ctx), Elements(q.excludedKeys), q.seed, j,
                      SideOf(players, Listed(s, |players|), ctx).value);
  }

  /** Optimality of each mode's choice: against every half split in either orientation whose listed
      key was not used before. */
  lemma ChoiceIsOptimal(players: seq<Player>, ctx: Context, q: Request, j: nat, s: set<nat>)
    requires |players| == 2 * TEAM_SIZE && DistinctUsers(players) && LocksCover(players) && q.excludedIds == [] && j < 3
    requires HalfSplit(s, |players|) && SideOf(players, s, ctx).Some?
    ensures SideOf(players, Listed(s, |players|), ctx).Some?
    ensures var ps := PicksOf(players, ctx, q);
      var key := CombinationKey(SideOf(players, Listed(s, |players|), ctx).value.teamA);
      && ps[j].Some? && ps[j].value.mode == MODES[j]
      && ps[j].value.score == Score(ps[j].value.split.metrics, MODES[j])
      && (key !in UsedBefore(Elements(q.excludedKeys), ps[..j]) ==>
            ps[j].value.score <= Score(SideOf(players, s, ctx).value.metrics, MODES[j]))
  {
    CoveredIsListed(players, s, ctx);
    ChoiceBeats(players, ctx, q, j, s);
  }

  /** The first of three candidates is the BALANCED one, and its score is at most the given one. */
  ghost predicate BalancedAtMost(r: seq<Candidate>, score: real) {
    && |r| == 3 && r[0].mode == BalanceMode.BALANCED
    && r[0].score == Score(r[0].split.metrics, BalanceMode.BALANCED) <= score
  }

  /** With nothing excluded the BALANCED candidate beats every split that is evaluable as listed. */
  lemma BalancedBeats(players: seq<Player>, ctx: Context, seed: Option<string>, s: set<nat>)
    requires |players| == 2 * TEAM_SIZE && DistinctUsers(players)
    requires HalfSplit(s, |players|) && SideOf(players, s, ctx).Some?
    requires SideOf(players, Listed(s, |players|), ctx).Some?
    ensures BalancedAtMost(Present(PicksOf(players, ctx, Request([], [], seed))),
                           Score(SideOf(players, s, ctx).value.metrics, BalanceMode.BALANCED))
  {
    var q := Request([], [], seed);
    var ps := PicksOf(players, ctx, q);
    ChoiceBeats(players, ctx, q, 0, s);
    ChoiceBeats(players, ctx, q, 1, s);
    ChoiceBeats(players, ctx, q, 2, s);
    PresentOfThree(ps);
    assert Elements(q.excludedKeys) == {};
    assert UsedBefore({}, ps[..0]) == {};
  }

  /** With nothing excluded, the first candidate is the BALANCED one and no half split, in either
      orientation and with both teams in their best role assignment, scores below it. */
  lemma BalancedIsOptimal(players: seq<Player>, ctx: Context, seed: Option<string>, s: set<nat>)
    requires |players| == 2 * TEAM_SIZE && DistinctUsers(players) && LocksCover(players)
    requires HalfSplit(s, |players|) && SideOf(players, s, ctx).Some?
    ensures BalancedAtMost(Present(PicksOf(players, ctx, Request([], [], seed))),
                           Score(SideOf(players, s, ctx).value.metrics, BalanceMode.BALANCED))
  {
    CoveredIsListed(players, s, ctx);
    BalancedBeats(players, ctx, seed, s);
  }

  lemma PresentOfThree(ps: seq<Option<Candidate>>)
    requires |ps| == 3 && ps[0].Some? && ps[1].Some? && ps[2].Some?
    ensures Present(ps) == [ps[0].value, ps[1].value, ps[2].value]
  {
    assert ps[1..][1..] == [ps[2]];
    assert Present([ps[2]]) == [ps[2].value];
    assert Present(ps[1..]) == [ps[1].value] + Present(ps[1..][1..]);
  }

  lemma PresentOfNone(ps: seq<Option<Candidate>>)
    requires forall p :: p in ps ==> p.None?
    ensures Present(ps) == []
  {
    if ps != [] {
      assert ps[0] in ps;
      PresentOfNone(ps[1..]);
    }
  }

  lemma {:induction false} PresentMembers(ps: seq<Option<Candidate>>, c: Candidate)
    ensures c in Present(ps) <==> Some(c) in ps
  {
    if ps == [] {
    } else {
      PresentMembers(ps[1..], c);
    }
  }

  /** Each candidate comes from an evaluable half split with player 0 on side A and carries no excluded id. */
  lemma CandidatesComeFromSplits(players: seq<Player>, ctx: Context, q: Request, c: Candidate)
    requires |players| == 2 * TEAM_SIZE && c in Present(PicksOf(players, ctx, q))
    ensures c.candidateId !in q.excludedIds
    ensures exists s :: HalfSplit(s, |players|) && 0 in s && SideOf(players, s, ctx) == Some(c.split)
    ensures exists j: nat ::
      j < 3 && PicksOf(players, ctx, q)[j] == Some(c) && c == CandidateOf(c.split, MODES[j], j + 1)
  {
    var splits, ps := SplitsOf(players, ctx), PicksOf(players, ctx, q);
    PresentMembers(ps, c);
    var j: nat :| j < |ps| && ps[j] == Some(c);
    PicksAreGood(splits, q.excludedIds, Elements(q.excludedKeys), q.seed, j);
    OffersMembers(splits, MODES[j], j + 1, q.excludedIds, c);
    var sp :| sp in splits && CandidateOf(sp, MODES[j], j + 1) == c;
    SplitsExactly(players, ctx, sp);
  }

  /** The candidate a split yields in mode number j is not excluded. */
  ghost predicate Offered(players: seq<Player>, ctx: Context, q: Request, s: set<nat>, j: nat)
    requires |players| == 2 * TEAM_SIZE && j < 3
  {
    && HalfSplit(s, |players|) && 0 in s && SideOf(players, s, ctx).Some?
    && CandidateOf(SideOf(players, s, ctx).value, MODES[j], j + 1).candidateId !in q.excludedIds
  }

  lemma OfferedIsAnswered(players: seq<Player>, ctx: Context, q: Request, s: set<nat>, j: nat)
    requires |players| == 2 * TEAM_SIZE && j < 3 && Offered(players, ctx, q, s, j)
    ensures PicksOf(players, ctx, q)[j].Some?
  {
    var splits, sp := SplitsOf(players, ctx), SideOf(players, s, ctx).value;
    SplitsExactly(players, ctx, sp);
    PicksAreGood(splits, q.excludedIds, Elements(q.excludedKeys), q.seed, j);
    OffersMembers(splits, MODES[j], j + 1, q.excludedIds, CandidateOf(sp, MODES[j], j + 1));
    assert CandidateOf(sp, MODES[j], j + 1) in Offers(splits, MODES[j], j + 1, q.excludedIds);
  }

  /** Some candidate exists exactly when some half split with player 0 on side A can be evaluated and one of its
      three ids is not excluded. */
  lemma SomeCandidateExactly(players: seq<Player>, ctx: Context, q: Request)
    requires |players| == 2 * TEAM_SIZE
    ensures Present(PicksOf(players, ctx, q)) != [] <==> exists s, j: nat :: j < 3 && Offered(players, ctx, q, s, j)
  {
    var r := Present(PicksOf(players, ctx, q));
    if r == [] {
      forall s, j: nat | j < 3 ensures !Offered(players, ctx, q, s, j) {
        if Offered(players, ctx, q, s, j) {
          OfferedIsAnswered(players, ctx, q, s, j);
          PresentMembers(PicksOf(players, ctx, q), PicksOf(players, ctx, q)[j].value);
        }
      }
    } else {
      CandidatesComeFromSplits(players, ctx, q, r[0]);
      var s :| HalfSplit(s, |players|) && 0 in s && SideOf(players, s, ctx) == Some(r[0].split);
      var j: nat :| j < 3 && r[0] == CandidateOf(r[0].split, MODES[j], j + 1);
      assert Offered(players, ctx, q, s, j);
    }
  }

  /** Without excluded ids the answer is empty or exactly candidates 1 to 3, one per mode; it is empty
      exactly when no half split with player 0 on side A respects the locks and seats both teams. */
  lemma AllOrNothing(players: seq<Player>, ctx: Context, q: Request)
    requires |players| == 2 * TEAM_SIZE && q.excludedIds == []
    ensures var r := Present(PicksOf(players, ctx, q));
      && (r == [] <==> forall s :: HalfSplit(s, |players|) && 0 in s ==> SideOf(players, s, ctx).None?)
      && (r != [] ==> |r| == 3 && forall j :: 0 <= j < 3 ==> r[j].candidateNo == j + 1 && r[j].mode == MODES[j])
  {
    ThreeOrNone(SplitsOf(players, ctx), q);
    NoSplitsExactly(players, ctx);
  }

  lemma ThreeOrNone(splits: seq<Split>, q: Request)
    requires q.excludedIds == []
    ensures var r := Present(Picks(splits, 0, q.excludedIds, Elements(q.excludedKeys), q.seed));
      && (r == [] <==> splits == [])
      && (r != [] ==> |r| == 3 && forall j :: 0 <= j < 3 ==> r[j].candidateNo == j + 1 && r[j].mode == MODES[j])
  {
    var ps := Picks(splits, 0, q.excludedIds, Elements(q.excludedKeys), q.seed);
    ChoiceExists(splits, q, 0);
    ChoiceExists(splits, q, 1);
    ChoiceExists(splits, q, 2);
    if splits == [] {
      PresentOfNone(ps);
    } else {
      PresentOfThree(ps);
    }
  }

  lemma ChoiceExists(splits: seq<Split>, q: Request, j: nat)
    requires j < 3 && q.excludedIds == []
    ensures var p := Picks(splits, 0, q.excludedIds, Elements(q.excludedKeys), q.seed)[j];
      && (p.None? <==> splits == [])
      && (p.Some? ==> p.value.candidateNo == j + 1 && p.value.mode == MODES[j])
  {
    var p := Picks(splits, 0, q.excludedIds, Elements(q.excludedKeys), q.seed)[j];
    PicksAreGood(splits, [], Elements(q.excludedKeys), q.seed, j);
    if splits != [] {
      OffersMembers(splits, MODES[j], j + 1, [], CandidateOf(splits[0], MODES[j], j + 1));
    }
    if p.Some? {
      OffersMembers(splits, MODES[j], j + 1, [], p.value);
    }
  }

  lemma NoSplitsExactly(players: seq<Player>, ctx: Context)
    requires |players| == 2 * TEAM_SIZE
    ensures SplitsOf(players, ctx) == [] <==>
      forall s :: HalfSplit(s, |players|) && 0 in s ==> SideOf(players, s, ctx).None?
  {
    var splits := SplitsOf(players, ctx);
    if splits == [] {
      forall s | HalfSplit(s, |players|) && 0 in s ensures SideOf(players, s, ctx).None? {
        if sp: Split :| SideOf(players, s, ctx) == Some(sp) {
          SplitsExactly(players, ctx, sp);
        }
      }
    } else {
      SplitsExactly(players, ctx, splits[0]);
    }
  }

  /** A first player locked to side B leaves no candidate at all, whatever the other players are. */
  lemma FirstPlayerLockedToB(players: seq<Player>, ctx: Context, q: Request)
    requires |players| == 2 * TEAM_SIZE && players[0].lockedTeamSide == Some(B)
    ensures Present(PicksOf(players, ctx, q)) == []
  {
    forall s | HalfSplit(s, |players|) && 0 in s ensures SideOf(players, s, ctx).None? {
      SideRespectsLocks(players, s, ctx);
    }
    NoSplitsExactly(players, ctx);
    PresentOfNone(PicksOf(players, ctx, q));
  }

  /** An excluded or already used combination is chosen only when its mode has nothing else left. */
  lemma RepeatsOnlyWhenForced(players: seq<Player>, ctx: Context, q: Request, j: nat)
    requires |players| == 2 * TEAM_SIZE && j < 3
    ensures var ps := PicksOf(players, ctx, q);
      var used := UsedBefore(Elements(q.excludedKeys), ps[..j]);
      ps[j].Some? && ps[j].value.combinationKey in used ==>
        forall s :: HalfSplit(s, |players|) && 0 in s && SideOf(players, s, ctx).Some? ==>
          var c := CandidateOf(SideOf(players, s, ctx).value, MODES[j], j + 1);
          c.candidateId in q.excludedIds || c.combinationKey in used
  {
    var splits, ps := SplitsOf(players, ctx), PicksOf(players, ctx, q);
    PicksAreGood(splits, q.excludedIds, Elements(q.excludedKeys), q.seed, j);
    forall s | HalfSplit(s, |players|) && 0 in s && SideOf(players, s, ctx).Some?
      ensures SideOf(players, s, ctx).value in splits
    {
      SplitsExactly(players, ctx, SideOf(players, s, ctx).value);
    }
    forall sp | sp in splits
      ensures var c := CandidateOf(sp, MODES[j], j + 1);
        c in Offers(splits, MODES[j], j + 1, q.excludedIds) || c.candidateId in q.excludedIds
    {
      OffersMembers(splits, MODES[j], j + 1, q.excludedIds, CandidateOf(sp, MODES[j], j + 1));
    }
  }
}
