/** Who sits where in a candidate, and what its combination key identifies. */
module CandidateKeys {
  import opened Balancer
  import opened BalancerOptimality
  import opened Combinations
  import opened Domain
  import opened Prelude
  import opened RoleSearch
  import opened TeamMetrics

  // ---- seats ----

  /** f names the player index on each lane: one of the players of s per lane, at a cost their role lock allows. */
  ghost predicate Lineup(players: seq<Player>, s: set<nat>, f: seq<nat>) {
    && |f| == 5 && Distinct(f) && Elements(f) == s && s <= Below(|players|)
    && forall k: nat :: k < 5 ==> f[k] < |players| && RoleCost(players[f[k]], LANES[k]).Finite?
  }

  ghost predicate SeatedAs(players: seq<Player>, f: seq<nat>, seats: seq<Seat>) {
    && |f| == |seats| == 5
    && (forall k: nat :: k < 5 ==> f[k] < |players|)
    && (forall k: nat :: k < 5 ==>
          seats[k] == Seat(players[f[k]].userId, LANES[k], RolePower(players[f[k]], LANES[k])))
  }

  /** Total distance from the wished roles over the first n lanes. */
  ghost function Distance(players: seq<Player>, f: seq<nat>, n: nat): nat
    requires n <= |f| && n <= 5 && forall k: nat :: k < n ==> f[k] < |players|
  {
    if n == 0 then 0 else Distance(players, f, n - 1) + RoleDistance(players[f[n - 1]], LANES[n - 1])
  }

  /** The lineup behind a role assignment of the team with index list c. */
  ghost function Through(c: seq<nat>, a: seq<nat>): (f: seq<nat>)
    requires forall k :: 0 <= k < |a| ==> a[k] < |c|
    ensures |f| == |a| && forall k :: 0 <= k < |a| ==> f[k] == c[a[k]]
  {
    seq(|a|, (k: nat) requires k < |a| => c[a[k]])
  }

  lemma AssignmentIsLineup(players: seq<Player>, s: set<nat>, a: seq<nat>)
    requires s <= Below(|players|) && |s| == 5
    requires Solves(TeamProblem(Team(players, Ascending(s, 0, |players|))), a)
    ensures |Ascending(s, 0, |players|)| == 5 && forall k :: 0 <= k < |a| ==> a[k] < 5
    ensures Lineup(players, s, Through(Ascending(s, 0, |players|), a))
  {
    var c := Ascending(s, 0, |players|);
    var t := TeamProblem(Team(players, c));
    AscendingEnumerates(s, |players|);
    IncreasingDistinct(c);
    var f := Through(c, a);
    forall k: nat | k < 5 ensures f[k] in s && RoleCost(players[f[k]], LANES[k]).Finite? {
      assert t.cost(a[k], k).Finite?;
      assert f[k] in c;
    }
    DistinctSize(f);
    assert Elements(f) <= s;
    SubsetSize(Elements(f), s);
  }

  lemma LineupIsAssignment(players: seq<Player>, s: set<nat>, g: seq<nat>) returns (a: seq<nat>)
    requires |s| == 5 && Lineup(players, s, g)
    ensures Solves(TeamProblem(Team(players, Ascending(s, 0, |players|))), a)
    ensures |Ascending(s, 0, |players|)| == 5
    ensures g == Through(Ascending(s, 0, |players|), a)
  {
    var c := Ascending(s, 0, |players|);
    AscendingEnumerates(s, |players|);
    forall k | 0 <= k < 5 ensures g[k] in c {
      assert g[k] in Elements(g);
    }
    a := seq(5, (k: nat) requires k < 5 => FirstIndex(c, g[k]));
    forall k: nat | k < 5 ensures a[k] < 5 && c[a[k]] == g[k] {
      FirstIndexFinds(c, g[k]);
    }
    var t := TeamProblem(Team(players, c));
    forall k: nat | k < 5 ensures t.cost(a[k], k).Finite? {
      assert c[a[k]] == g[k];
    }
  }

  lemma {:induction false} FirstIndexFinds<T>(s: seq<T>, x: T)
    requires x in s
    ensures FirstIndex(s, x) < |s| && s[FirstIndex(s, x)] == x
  {
    if s[0] != x {
      FirstIndexFinds(s[1..], x);
    }
  }

  lemma {:induction false} TotalIsDistance(players: seq<Player>, s: set<nat>, a: seq<nat>, n: nat)
    requires s <= Below(|players|) && |s| == 5 && n <= 5
    requires Solves(TeamProblem(Team(players, Ascending(s, 0, |players|))), a)
    ensures |Ascending(s, 0, |players|)| == 5
    ensures forall k: nat :: k < 5 ==> a[k] < 5 && Ascending(s, 0, |players|)[a[k]] < |players|
    ensures Total(TeamProblem(Team(players, Ascending(s, 0, |players|))), a[..n])
         == Distance(players, Through(Ascending(s, 0, |players|), a), n)
  {
    var c := Ascending(s, 0, |players|);
    var team := Team(players, c);
    AssignmentIsLineup(players, s, a);
    if n == 0 {
    } else {
      TotalIsDistance(players, s, a, n - 1);
      assert a[..n][..n - 1] == a[..n - 1];
      SeatedAtFiniteCost(team, a, n - 1);
    }
  }

  /** Each team of a split sits in a lineup of least total distance among all its lineups. */
  lemma SeatingIsBestLineup(players: seq<Player>, s: set<nat>) returns (f: seq<nat>)
    requires s <= Below(|players|) && |s| == 5
    requires SeatTeam(Team(players, Ascending(s, 0, |players|))).Some?
    ensures Lineup(players, s, f)
    ensures SeatedAs(players, f, SeatTeam(Team(players, Ascending(s, 0, |players|))).value.seats)
    ensures forall g :: Lineup(players, s, g) ==> Distance(players, f, 5) <= Distance(players, g, 5)
  {
    var c := Ascending(s, 0, |players|);
    var t := TeamProblem(Team(players, c));
    SolveIsOptimal(t);
    var a := Solve(t).value.assignment;
    AssignmentIsLineup(players, s, a);
    TotalIsDistance(players, s, a, 5);
    f := Through(c, a);
    assert a[..5] == a;
    forall g | Lineup(players, s, g) ensures Distance(players, f, 5) <= Distance(players, g, 5) {
      var b := LineupIsAssignment(players, s, g);
      TotalIsDistance(players, s, b, 5);
      assert b[..5] == b;
    }
  }

  /** Every player sits exactly once, five lanes a side, and every side and role lock is honoured. */
  lemma CandidateSeatsEveryone(players: seq<Player>, ctx: Context, q: Request, c: Candidate)
    returns (s: set<nat>, f: seq<nat>, g: seq<nat>)
    requires |players| == 2 * TEAM_SIZE && c in Present(PicksOf(players, ctx, q))
    ensures HalfSplit(s, |players|) && LockRespecting(players, s)
    ensures Lineup(players, s, f) && SeatedAs(players, f, c.split.teamA)
    ensures Lineup(players, Mirrored(s, |players|), g) && SeatedAs(players, g, c.split.teamB)
  {
    CandidatesComeFromSplits(players, ctx, q, c);
    s :| HalfSplit(s, |players|) && 0 in s && SideOf(players, s, ctx) == Some(c.split);
    SideRespectsLocks(players, s, ctx);
    OthersAreMirrored(s, |players|);
    MirroredHalf(s, |players|);
    f := SeatingIsBestLineup(players, s);
    g := SeatingIsBestLineup(players, Mirrored(s, |players|));
  }

  // ---- keys ----

  predicate NoBar(s: string) {
    '|' !in s
  }

  /** What follows the last separator. */
  function AfterLast(s: string, sep: char): (r: string) {
    if s == [] || s[|s| - 1] == sep then [] else AfterLast(s[..|s| - 1], sep) + [s[|s| - 1]]
  }

  lemma {:induction false} AfterLastIs(a: string, sep: char, b: string)
    requires sep !in b
    ensures AfterLast(a + [sep] + b, sep) == b
  {
    var s := a + [sep] + b;
    if b == [] {
    } else {
      var n := |b| - 1;
      AfterLastIs(a, sep, b[..n]);
      assert s[..|s| - 1] == a + [sep] + b[..n];
      assert s[|s| - 1] == b[n];
      assert b == b[..n] + [b[n]];
    }
  }

  /** The last separator marks where to cut. */
  lemma SplitAtLast(a: string, b: string, c: string, d: string, sep: char)
    requires sep !in b && sep !in d && a + [sep] + b == c + [sep] + d
    ensures a == c && b == d
  {
    AfterLastIs(a, sep, b);
    AfterLastIs(c, sep, d);
    var s, t := a + [sep] + b, c + [sep] + d;
    assert a == s[..|s| - 1 - |b|] && c == t[..|t| - 1 - |d|];
  }

  lemma RoleNames(role: Position, other: Position)
    ensures '-' !in RoleName(role)
    ensures RoleName(role) == RoleName(other) ==> role == other
  {
    assert RoleName(role)[0] == RoleName(other)[0] ==> role == other;
  }

  lemma SeatNameInjective(s: Seat, t: Seat)
    requires SeatName(s) == SeatName(t)
    ensures s.userId == t.userId && s.role == t.role
  {
    RoleNames(s.role, t.role);
    RoleNames(t.role, s.role);
    SplitAtLast(s.userId, RoleName(s.role), t.userId, RoleName(t.role), '-');
  }

  lemma SeatNameHasNoBar(s: Seat)
    requires NoBar(s.userId)
    ensures NoBar(SeatName(s))
  {
    assert NoBar(RoleName(s.role));
  }

  ghost predicate SameSeats(a: seq<Seat>, b: seq<Seat>) {
    |a| == |b| && forall k :: 0 <= k < |a| ==> a[k].userId == b[k].userId && a[k].role == b[k].role
  }

  /** Without '|' in the user ids, the key determines the whole assignment of side A. */
  lemma {:induction false} KeyDeterminesTeam(a: seq<Seat>, b: seq<Seat>)
    requires |a| == |b| && CombinationKey(a) == CombinationKey(b)
    requires forall k :: 0 <= k < |a| ==> NoBar(a[k].userId) && NoBar(b[k].userId)
    ensures SameSeats(a, b)
  {
    if |a| == 1 {
      SeatNameInjective(a[0], b[0]);
    } else if |a| > 1 {
      SeatNameHasNoBar(a[0]);
      SeatNameHasNoBar(b[0]);
      SplitAtSeparator('|', SeatName(a[0]), CombinationKey(a[1..]), SeatName(b[0]), CombinationKey(b[1..]));
      SeatNameInjective(a[0], b[0]);
      KeyDeterminesTeam(a[1..], b[1..]);
      forall k | 0 < k < |a| ensures a[k].userId == b[k].userId && a[k].role == b[k].role {
        assert a[k] == a[1..][k - 1] && b[k] == b[1..][k - 1];
      }
    }
  }

  ghost predicate PlainIds(players: seq<Player>) {
    forall p :: p in players ==> NoBar(p.userId)
  }

  ghost function KeyOfSplit(players: seq<Player>, s: set<nat>, ctx: Context): string
    requires |players| == 2 * TEAM_SIZE && SideOf(players, s, ctx).Some?
  {
    CombinationKey(SideOf(players, s, ctx).value.teamA)
  }

  lemma SideSeatsTeam(players: seq<Player>, s: set<nat>, ctx: Context) returns (f: seq<nat>)
    requires |players| == 2 * TEAM_SIZE && HalfSplit(s, |players|) && SideOf(players, s, ctx).Some?
    ensures Lineup(players, s, f) && SeatedAs(players, f, SideOf(players, s, ctx).value.teamA)
  {
    f := SeatingIsBestLineup(players, s);
  }

  lemma SeatedPlainly(players: seq<Player>, f: seq<nat>, seats: seq<Seat>)
    requires PlainIds(players) && SeatedAs(players, f, seats)
    ensures forall k :: 0 <= k < 5 ==> NoBar(seats[k].userId)
  {
    forall k: nat | k < 5 ensures NoBar(seats[k].userId) {
      assert players[f[k]] in players;
    }
  }

  lemma SameSeatsSameLineup(players: seq<Player>, f: seq<nat>, a: seq<Seat>, g: seq<nat>, b: seq<Seat>)
    requires DistinctUsers(players) && SeatedAs(players, f, a) && SeatedAs(players, g, b) && SameSeats(a, b)
    ensures f == g
  {
    forall k: nat | k < 5 ensures f[k] == g[k] {
      assert players[f[k]].userId == a[k].userId == b[k].userId == players[g[k]].userId;
    }
  }

  /** Different splits have different keys. */
  lemma SplitsHaveDistinctKeys(players: seq<Player>, s: set<nat>, t: set<nat>, ctx: Context)
    requires |players| == 2 * TEAM_SIZE && DistinctUsers(players) && PlainIds(players)
    requires HalfSplit(s, |players|) && SideOf(players, s, ctx).Some?
    requires HalfSplit(t, |players|) && SideOf(players, t, ctx).Some?
    ensures KeyOfSplit(players, s, ctx) == KeyOfSplit(players, t, ctx) ==> s == t
  {
    var f := SideSeatsTeam(players, s, ctx);
    var g := SideSeatsTeam(players, t, ctx);
    var a, b := SideOf(players, s, ctx).value.teamA, SideOf(players, t, ctx).value.teamA;
    if CombinationKey(a) == CombinationKey(b) {
      SeatedPlainly(players, f, a);
      SeatedPlainly(players, g, b);
      KeyDeterminesTeam(a, b);
      SameSeatsSameLineup(players, f, a, g, b);
    }
  }

  // ---- distinctness of the three candidates ----

  /** A split nothing in the request excludes. */
  ghost predicate Unexcluded(players: seq<Player>, s: set<nat>, ctx: Context, q: Request)
    requires |players| == 2 * TEAM_SIZE
  {
    && HalfSplit(s, |players|) && 0 in s && SideOf(players, s, ctx).Some?
    && KeyOfSplit(players, s, ctx) !in q.excludedKeys
    && forall j: nat :: j < 3 ==> CandidateOf(SideOf(players, s, ctx).value, MODES[j],
                                              j + 1).candidateId !in q.excludedIds
  }

  lemma ForcedRepeat(players: seq<Player>, ctx: Context, q: Request, j: nat, s: set<nat>)
    requires |players| == 2 * TEAM_SIZE && j < 3 && Unexcluded(players, s, ctx, q)
    ensures var ps := PicksOf(players, ctx, q);
      var used := UsedBefore(Elements(q.excludedKeys), ps[..j]);
      ps[j].Some? && (ps[j].value.combinationKey in used ==> KeyOfSplit(players, s, ctx) in used)
  {
    var splits, ps := SplitsOf(players, ctx), PicksOf(players, ctx, q);
    var sp := SideOf(players, s, ctx).value;
    SplitsExactly(players, ctx, sp);
    PicksAreGood(splits, q.excludedIds, Elements(q.excludedKeys), q.seed, j);
    OffersMembers(splits, MODES[j], j + 1, q.excludedIds, CandidateOf(sp, MODES[j], j + 1));
    assert CandidateOf(sp, MODES[j], j + 1).candidateId !in q.excludedIds;
    assert CandidateOf(sp, MODES[j], j + 1) in Offers(splits, MODES[j], j + 1, q.excludedIds);
  }

  lemma UsedByTwo(used: set<string>, ps: seq<Option<Candidate>>)
    requires |ps| == 3 && ps[0].Some? && ps[1].Some?
    ensures UsedBefore(used, ps[..0]) == used
    ensures UsedBefore(used, ps[..1]) == used + {ps[0].value.combinationKey}
    ensures UsedBefore(used, ps[..2]) == used + {ps[0].value.combinationKey} + {ps[1].value.combinationKey}
  {
    assert ps[..1] == [ps[0]] && ps[..2] == [ps[0], ps[1]];
    assert [ps[0], ps[1]][1..] == [ps[1]] && [ps[1]][1..] == [] && [ps[0]][1..] == [];
    assert UsedBefore(used + {ps[0].value.combinationKey}, [ps[1]])
        == used + {ps[0].value.combinationKey} + {ps[1].value.combinationKey};
  }

  ghost predicate PairwiseDifferent(r: seq<Candidate>, excludedKeys: set<string>) {
    && |r| == 3
    && r[0].combinationKey != r[1].combinationKey
    && r[1].combinationKey != r[2].combinationKey
    && r[0].combinationKey != r[2].combinationKey
    && forall j :: 0 <= j < 3 ==> r[j].combinationKey !in excludedKeys
  }

  /** If choice j repeats a used key, then x, y and z are used as well. */
  ghost predicate RepeatNeedsAll(used: set<string>, ps: seq<Option<Candidate>>, j: nat, x: string, y: string, z: string)
    requires j < |ps|
  {
    var before := UsedBefore(used, ps[..j]);
    ps[j].Some? && (ps[j].value.combinationKey in before ==> x in before && y in before && z in before)
  }

  /** With three unexcluded splits the answer is three candidates of pairwise different combinations,
      none of them excluded. */
  lemma CandidatesDiffer(players: seq<Player>, ctx: Context, q: Request, s: set<nat>, t: set<nat>, u: set<nat>)
    requires |players| == 2 * TEAM_SIZE && DistinctUsers(players) && PlainIds(players)
    requires Unexcluded(players, s, ctx, q) && Unexcluded(players, t, ctx, q) && Unexcluded(players, u, ctx, q)
    requires s != t && t != u && s != u
    ensures PairwiseDifferent(Present(PicksOf(players, ctx, q)), Elements(q.excludedKeys))
  {
    SplitsHaveDistinctKeys(players, s, t, ctx);
    SplitsHaveDistinctKeys(players, t, u, ctx);
    SplitsHaveDistinctKeys(players, s, u, ctx);
    forall j: nat | j < 3
      ensures RepeatNeedsAll(Elements(q.excludedKeys), PicksOf(players, ctx, q), j,
                             KeyOfSplit(players, s, ctx), KeyOfSplit(players, t, ctx), KeyOfSplit(players, u, ctx))
    {
      ForcedRepeats(players, ctx, q, j, s, t, u);
    }
    ThreeFreshKeys(Elements(q.excludedKeys), PicksOf(players, ctx, q),
                   KeyOfSplit(players, s, ctx), KeyOfSplit(players, t, ctx), KeyOfSplit(players, u, ctx));
  }

  lemma ForcedRepeats(players: seq<Player>, ctx: Context, q: Request, j: nat, s: set<nat>, t: set<nat>, u: set<nat>)
    requires |players| == 2 * TEAM_SIZE && j < 3
    requires Unexcluded(players, s, ctx, q) && Unexcluded(players, t, ctx, q) && Unexcluded(players, u, ctx, q)
    ensures RepeatNeedsAll(Elements(q.excludedKeys), PicksOf(players, ctx, q), j,
                           KeyOfSplit(players, s, ctx), KeyOfSplit(players, t, ctx), KeyOfSplit(players, u, ctx))
  {
    ForcedRepeat(players, ctx, q, j, s);
    ForcedRepeat(players, ctx, q, j, t);
    ForcedRepeat(players, ctx, q, j, u);
  }

  /** Three unused keys cannot all be taken by at most two earlier choices. */
  lemma ThreeFreshKeys(used: set<string>, ps: seq<Option<Candidate>>, x: string, y: string, z: string)
    requires |ps| == 3 && x != y && y != z && x != z && x !in used && y !in used && z !in used
    requires forall j: nat :: j < 3 ==> RepeatNeedsAll(used, ps, j, x, y, z)
    ensures PairwiseDifferent(Present(ps), used)
  {
    assert RepeatNeedsAll(used, ps, 0, x, y, z);
    assert RepeatNeedsAll(used, ps, 1, x, y, z) && RepeatNeedsAll(used, ps, 2, x, y, z);
    UsedByTwo(used, ps);
    PresentOfThree(ps);
  }
}
