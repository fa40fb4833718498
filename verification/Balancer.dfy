/** Candidate generation: enumerate the splits, seat both teams, and pick one split per mode. */
module Balancer {
  import opened Combinations
  import opened Domain
  import opened PairHistory
  import opened Prelude
  import opened RoleSearch
  import opened TeamMetrics

  const TEAM_SIZE: nat := 5

  // ---- one split ----

  function Team(players: seq<Player>, indices: seq<nat>): (r: seq<Player>)
    requires forall i :: i in indices ==> i < |players|
  {
    seq(|indices|, (k: nat) requires k < |indices| => assert indices[k] in indices; players[indices[k]])
  }

  /** The players left for the other side, in index order. */
  function Others(c: seq<nat>, n: nat): (r: seq<nat>)
    ensures forall i :: i in r ==> i < n
  {
    Ascending(Below(n) - Elements(c), 0, n)
  }

  predicate MayPlayOn(p: Player, side: TeamSide) {
    p.lockedTeamSide.None? || p.lockedTeamSide.value == side
  }

  predicate RespectsLockedTeams(teamA: seq<Player>, teamB: seq<Player>) {
    (forall p | p in teamA :: MayPlayOn(p, A)) && (forall p | p in teamB :: MayPlayOn(p, B))
  }

  datatype Seating = Seating(seats: seq<Seat>, offRoles: nat)

  function SeatTeam(team: seq<Player>): (r: Option<Seating>)
    ensures r.Some? ==> |r.value.seats| == 5
  {
    SolveIsOptimal(TeamProblem(team));
    var s := Solve(TeamProblem(team));
    if s.None? then None else Some(Seating(Seats(team, s.value.assignment), s.value.offRoles))
  }

  method FindBestRoleAssignment(team: seq<Player>) returns (r: Option<Seating>)
    ensures r == SeatTeam(team)
  {
    var s := FindBestAssignment(TeamProblem(team));
    SolveIsOptimal(TeamProblem(team));
    if s.None? {
      return None;
    }
    return Some(Seating(Seats(team, s.value.assignment), s.value.offRoles));
  }

  datatype Split = Split(teamA: seq<Seat>, teamB: seq<Seat>, metrics: Metrics, offRoles: nat)

  /** Inputs of the evaluation other than the players; sqrt stands for Math.sqrt. */
  datatype Context = Context(history: Option<History>, sqrt: real -> real)

  function SeatedSplit(teamA: seq<Player>, teamB: seq<Player>, a: Seating, b: Seating, ctx: Context): (s: Split)
    requires |a.seats| == |b.seats| == 5
  {
    Split(a.seats, b.seats, Evaluate(teamA, teamB, a.seats, b.seats, ctx.history, ctx.sqrt), a.offRoles + b.offRoles)
  }

  /** The evaluated split of two given teams, if the locks allow it and both can be seated. */
  function SplitOf(teamA: seq<Player>, teamB: seq<Player>, ctx: Context): (r: Option<Split>) {
    if !RespectsLockedTeams(teamA, teamB) then None
    else
      var a, b := SeatTeam(teamA), SeatTeam(teamB);
      if a.None? || b.None? then None else Some(SeatedSplit(teamA, teamB, a.value, b.value, ctx))
  }

  /** The split with the players of c on side A. */
  function SplitAt(players: seq<Player>, c: seq<nat>, ctx: Context): (r: Option<Split>)
    requires forall i :: i in c ==> i < |players|
  {
    SplitOf(Team(players, c), Team(players, Others(c, |players|)), ctx)
  }

  ghost predicate InRange(combinations: seq<seq<nat>>, n: nat) {
    forall c, i :: c in combinations && i in c ==> i < n
  }

  function SplitList(players: seq<Player>, combinations: seq<seq<nat>>, ctx: Context): (r: seq<Split>)
    requires InRange(combinations, |players|)
  {
    if combinations == [] then []
    else
      assert combinations[0] in combinations;
      var s := SplitAt(players, combinations[0], ctx);
      (if s.Some? then [s.value] else []) + SplitList(players, combinations[1..], ctx)
  }

  // ---- candidates and their order ----

  datatype Candidate = Candidate(
    candidateId: string, combinationKey: string, candidateNo: nat, mode: BalanceMode, score: real, split: Split)

  function RoleName(role: Position): (r: string) {
    match role
    case TOP => "TOP"
    case JUNGLE => "JUNGLE"
    case MID => "MID"
    case ADC => "ADC"
    case SUPPORT => "SUPPORT"
    case FILL => "FILL"
  }

  function ModeName(mode: BalanceMode): (r: string) {
    match mode
    case BALANCED => "BALANCED"
    case POSITION_FIRST => "POSITION_FIRST"
    case SKILL_FIRST => "SKILL_FIRST"
  }

  function SeatName(seat: Seat): (r: string) {
    seat.userId + "-" + RoleName(seat.role)
  }

  function CombinationKey(seats: seq<Seat>): (r: string) {
    if seats == [] then ""
    else if |seats| == 1 then SeatName(seats[0])
    else SeatName(seats[0]) + "|" + CombinationKey(seats[1..])
  }

  function CandidateOf(s: Split, mode: BalanceMode, no: nat): (r: Candidate) {
    var key := CombinationKey(s.teamA);
    Candidate(ModeName(mode) + ":" + key, key, no, mode, Score(s.metrics, mode), s)
  }

  function HashFrom(s: string, hash: nat): (r: nat)
    requires hash < 1000003
    ensures r < 1000003
    decreases s
  {
    if s == [] then hash else HashFrom(s[1..], (hash * 31 + s[0] as nat) % 1000003)
  }

  function TiebreakSeed(key: string, mode: BalanceMode, seed: Option<string>): (r: string) {
    ModeName(mode) + ":" + (if seed.Some? then seed.value else "default") + ":" + key
  }

  method ComputeTiebreakValue(key: string, mode: BalanceMode, seed: Option<string>) returns (hash: nat)
    ensures hash == HashFrom(TiebreakSeed(key, mode, seed), 0) < 1000003
  {
    var s := TiebreakSeed(key, mode, seed);
    hash := 0;
    var index := 0;
    while index < |s|
      invariant index <= |s| && hash < 1000003
      invariant HashFrom(s[index..], hash) == HashFrom(s, 0)
    {
      assert s[index..][1..] == s[index + 1..];
      hash := (hash * 31 + s[index] as nat) % 1000003;
      index := index + 1;
    }
  }

  /** The comparator: score first, then the tie-break hash. */
  predicate NotAfter(x: Candidate, y: Candidate, mode: BalanceMode, seed: Option<string>) {
    if x.score != y.score then x.score < y.score
    else HashFrom(TiebreakSeed(x.combinationKey, mode, seed),
                  0) <= HashFrom(TiebreakSeed(y.combinationKey, mode, seed), 0)
  }

  function Insert(x: Candidate, ys: seq<Candidate>, mode: BalanceMode, seed: Option<string>): (r: seq<Candidate>) {
    if ys == [] || NotAfter(x, ys[0], mode, seed) then [x] + ys
    else [ys[0]] + Insert(x, ys[1..], mode, seed)
  }

  /** The stable sort by that comparator. */
  function Ranked(xs: seq<Candidate>, mode: BalanceMode, seed: Option<string>): (r: seq<Candidate>) {
    if xs == [] then [] else Insert(xs[0], Ranked(xs[1..], mode, seed), mode, seed)
  }

  function Offers(splits: seq<Split>, mode: BalanceMode, no: nat, excludedIds: seq<string>): (r: seq<Candidate>) {
    if splits == [] then []
    else
      var c := CandidateOf(splits[0], mode, no);
      (if c.candidateId in excludedIds then [] else [c]) + Offers(splits[1..], mode, no, excludedIds)
  }

  function FirstUnused(ranked: seq<Candidate>, used: set<string>): (r: Option<Candidate>) {
    if ranked == [] then None
    else if ranked[0].combinationKey !in used then Some(ranked[0])
    else FirstUnused(ranked[1..], used)
  }

  function Pick(ranked: seq<Candidate>, used: set<string>): (r: Option<Candidate>) {
    var unique := FirstUnused(ranked, used);
    if unique.Some? then unique else if ranked == [] then None else Some(ranked[0])
  }

  const MODES: seq<BalanceMode> := [BalanceMode.BALANCED, POSITION_FIRST, SKILL_FIRST]

  function WithKey(used: set<string>, p: Option<Candidate>): (r: set<string>) {
    if p.Some? then used + {p.value.combinationKey} else used
  }

  /** The choice of each mode from the index-th on, given the keys used before it. */
  function Picks(splits: seq<Split>, index: nat, excludedIds: seq<string>, used: set<string>, seed: Option<string>)
    : (r: seq<Option<Candidate>>)
    requires index <= 3
    ensures |r| == 3 - index
    decreases 3 - index
  {
    if index == 3 then []
    else
      var mode := MODES[index];
      var p := Pick(Ranked(Offers(splits, mode, index + 1, excludedIds), mode, seed), used);
      [p] + Picks(splits, index + 1, excludedIds, WithKey(used, p), seed)
  }

  function Present(ps: seq<Option<Candidate>>): (r: seq<Candidate>) {
    if ps == [] then [] else (if ps[0].Some? then [ps[0].value] else []) + Present(ps[1..])
  }

  /** Options of one request: ids and combination keys to avoid, and a tie-break seed. */
  datatype Request = Request(excludedIds: seq<string>, excludedKeys: seq<string>, seed: Option<string>)

  function SplitsOf(players: seq<Player>, ctx: Context): (r: seq<Split>)
    requires |players| == 2 * TEAM_SIZE
  {
    HalfSplitsInRange(|players|);
    SplitList(players, WithPlayerZero(Completions([], 0, |players|, TEAM_SIZE)), ctx)
  }

  lemma HalfSplitsInRange(n: nat)
    ensures InRange(WithPlayerZero(Completions([], 0, n, TEAM_SIZE)), n)
  {
    AllCombinations(n, TEAM_SIZE);
    forall c, i | c in WithPlayerZero(Completions([], 0, n, TEAM_SIZE)) && i in c ensures i < n {
      assert IsCombination(c, n, TEAM_SIZE);
    }
  }

  function PicksOf(players: seq<Player>, ctx: Context, q: Request): (r: seq<Option<Candidate>>)
    requires |players| == 2 * TEAM_SIZE
    ensures |r| == 3
  {
    Picks(SplitsOf(players, ctx), 0, q.excludedIds, Elements(q.excludedKeys), q.seed)
  }

  method GenerateCandidates(players: seq<Player>, ctx: Context, q: Request) returns (r: seq<Candidate>)
    ensures r == if |players| != 2 * TEAM_SIZE then [] else Present(PicksOf(players, ctx, q))
  {
    if |players| != 2 * TEAM_SIZE {
      return [];
    }
    var all := BuildCombinations(|players|, TEAM_SIZE);
    var combinations := WithPlayerZero(all);
    HalfSplitsInRange(|players|);
    var splits := CollectSplits(players, combinations, ctx);
    r := SelectCandidates(splits, q);
  }

  lemma SplitListStep(players: seq<Player>, combinations: seq<seq<nat>>, i: nat, ctx: Context)
    requires i < |combinations| && InRange(combinations[i..], |players|)
    ensures InRange(combinations[i + 1..], |players|) && forall k :: k in combinations[i] ==> k < |players|
    ensures var s := SplitAt(players, combinations[i], ctx);
      SplitList(players, combinations[i..], ctx)
        == (if s.Some? then [s.value] else []) + SplitList(players, combinations[i + 1..], ctx)
  {
    assert combinations[i..][0] == combinations[i] && combinations[i] in combinations[i..];
    assert combinations[i..][1..] == combinations[i + 1..];
    forall c | c in combinations[i + 1..] ensures c in combinations[i..] {
      var j :| i + 1 <= j < |combinations| && combinations[j] == c;
      assert combinations[i..][j - i] == c;
    }
  }

  method CollectSplits(players: seq<Player>, combinations: seq<seq<nat>>, ctx: Context) returns (splits: seq<Split>)
    requires InRange(combinations, |players|)
    ensures splits == SplitList(players, combinations, ctx)
  {
    splits := [];
    var i := 0;
    while i < |combinations|
      invariant i <= |combinations|
      invariant InRange(combinations[i..], |players|)
      invariant splits + SplitList(players, combinations[i..], ctx) == SplitList(players, combinations, ctx)
    {
      var c := combinations[i];
      SplitListStep(players, combinations, i, ctx);
      var s := EvaluateSplit(players, c, ctx);
      AppendPresent(splits, s, SplitList(players, combinations[i + 1..], ctx));
      if s.Some? {
        splits := splits + [s.value];
      }
      i := i + 1;
    }
  }

  method EvaluateSplit(players: seq<Player>, c: seq<nat>, ctx: Context) returns (s: Option<Split>)
    requires forall i :: i in c ==> i < |players|
    ensures s == SplitAt(players, c, ctx)
  {
    s := EvaluateTeams(Team(players, c), Team(players, Others(c, |players|)), ctx);
  }

  method EvaluateTeams(teamA: seq<Player>, teamB: seq<Player>, ctx: Context) returns (s: Option<Split>)
    ensures s == SplitOf(teamA, teamB, ctx)
  {
    var allowed := RespectsLockedTeams(teamA, teamB);
    if !allowed {
      return None;
    }
    var a := FindBestRoleAssignment(teamA);
    var b := FindBestRoleAssignment(teamB);
    if a.None? || b.None? {
      return None;
    }
    var split := AssembleSplit(teamA, teamB, a.value, b.value, ctx);
    s := Some(split);
  }

  method AssembleSplit(teamA: seq<Player>, teamB: seq<Player>, a: Seating, b: Seating, ctx: Context) returns (s: Split)
    requires |a.seats| == |b.seats| == 5
    ensures s == SeatedSplit(teamA, teamB, a, b, ctx)
  {
    var metrics := CalculateMetrics(teamA, teamB, a.seats, b.seats, ctx.history, ctx.sqrt);
    s := Split(a.seats, b.seats, metrics, a.offRoles + b.offRoles);
  }

  method SelectCandidates(splits: seq<Split>, q: Request) returns (r: seq<Candidate>)
    ensures r == Present(Picks(splits, 0, q.excludedIds, Elements(q.excludedKeys), q.seed))
  {
    var used := set k | k in q.excludedKeys;
    r := [];
    var index := 0;
    while index < 3
      invariant 0 <= index <= 3
      invariant r + Present(Picks(splits, index, q.excludedIds, used, q.seed))
             == Present(Picks(splits, 0, q.excludedIds, Elements(q.excludedKeys), q.seed))
    {
      var mode := MODES[index];
      var selected := Pick(Ranked(Offers(splits, mode, index + 1, q.excludedIds), mode, q.seed), used);
      ghost var rest := Picks(splits, index + 1, q.excludedIds, WithKey(used, selected), q.seed);
      assert ([selected] + rest)[1..] == rest;
      AppendPresent(r, selected, Present(rest));
      assert used + (if selected.Some? then {selected.value.combinationKey} else {}) == WithKey(used, selected);
      if selected.Some? {
        used := used + {selected.value.combinationKey};
        r := r + [selected.value];
      }
      index := index + 1;
    }
  }
}
