/** The index of recent team-mates and the penalty for repeating them. */
module PairHistory {
  import opened Domain
  import opened Prelude

  datatype MatchPlayer = MatchPlayer(userId: string, teamSide: Option<TeamSide>)

  /** A confirmed match of the recent window, newest first in the window. */
  datatype RecentMatch = RecentMatch(id: string, players: seq<MatchPlayer>)

  datatype PairSummary = PairSummary(
    userIds: (string, string), sameTeamMatches: nat, weightedScore: real, recentMatchIds: seq<string>)

  datatype History = History(matchesAnalyzed: nat, pairs: map<string, PairSummary>)

  // ---- pairs and their keys ----

  predicate StringLess(a: string, b: string) {
    b != [] && (a == [] || a[0] < b[0] || (a[0] == b[0] && StringLess(a[1..], b[1..])))
  }

  lemma {:induction false} StringLessTotal(a: string, b: string)
    ensures a != b ==> (StringLess(a, b) <==> !StringLess(b, a))
    ensures !StringLess(a, a)
  {
    if a == [] {
    } else {
      if b != [] {
        StringLessTotal(a[1..], b[1..]);
        if a[0] == b[0] && a[1..] == b[1..] {
          assert a == [a[0]] + a[1..] == b;
        }
      } else {
        StringLessTotal(a[1..], []);
      }
    }
  }

  function SortPair(left: string, right: string): (r: (string, string)) {
    if StringLess(left, right) then (left, right) else (right, left)
  }

  function PairKey(left: string, right: string): (r: string) {
    var (first, second) := SortPair(left, right);
    first + ":" + second
  }

  lemma SortPairSymmetric(u: string, v: string)
    ensures SortPair(u, v) == SortPair(v, u)
    ensures PairKey(u, v) == PairKey(v, u)
    ensures PairKey(SortPair(u, v).0, SortPair(u, v).1) == PairKey(u, v)
  {
    StringLessTotal(u, v);
  }

  predicate NoColon(s: string) {
    ':' !in s
  }

  /** Without ':' in the ids, a key names one unordered pair. */
  lemma PairKeyInjective(u: string, v: string, x: string, y: string)
    requires NoColon(u) && NoColon(v) && NoColon(x) && NoColon(y)
    ensures PairKey(u, v) == PairKey(x, y) <==> (u == x && v == y) || (u == y && v == x)
  {
    if PairKey(u, v) == PairKey(x, y) {
      var (a, b) := SortPair(u, v);
      var (c, d) := SortPair(x, y);
      SplitAtSeparator(':', a, b, c, d);
    }
    SortPairSymmetric(u, v);
  }

  /** The pairs whose left member is x. */
  function Row(x: string, rest: seq<string>): (r: seq<(string, string)>) {
    if rest == [] then [] else [SortPair(x, rest[0])] + Row(x, rest[1..])
  }

  /** Every pair of positions of a team once, left position first. */
  function Pairs(team: seq<string>): (r: seq<(string, string)>) {
    if team == [] then [] else Row(team[0], team[1..]) + Pairs(team[1..])
  }

  method BuildPairs(userIds: seq<string>) returns (pairs: seq<(string, string)>)
    ensures pairs == Pairs(userIds)
  {
    pairs := [];
    var left := 0;
    while left < |userIds|
      invariant left <= |userIds|
      invariant pairs + Pairs(userIds[left..]) == Pairs(userIds)
    {
      var right := left + 1;
      ghost var done := pairs;
      while right < |userIds|
        invariant left < right <= |userIds|
        invariant pairs + Row(userIds[left], userIds[right..]) == done + Row(userIds[left], userIds[left + 1..])
      {
        assert userIds[right..][1..] == userIds[right + 1..];
        ConcatAssociative(pairs, [SortPair(userIds[left], userIds[right])], Row(userIds[left], userIds[right + 1..]));
        pairs := pairs + [SortPair(userIds[left], userIds[right])];
        right := right + 1;
      }
      assert pairs == done + Row(userIds[left], userIds[left + 1..]);
      assert userIds[left..][1..] == userIds[left + 1..];
      ConcatAssociative(done, Row(userIds[left], userIds[left + 1..]), Pairs(userIds[left + 1..]));
      left := left + 1;
    }
  }

  lemma {:induction false} RowMembers(x: string, rest: seq<string>, p: (string, string))
    ensures p in Row(x, rest) <==> exists y :: y in rest && p == SortPair(x, y)
  {
    if rest == [] {
    } else {
      RowMembers(x, rest[1..], p);
    }
  }

  lemma {:induction false} PairsListed(team: seq<string>, p: (string, string)) returns (i: nat, j: nat)
    requires p in Pairs(team)
    ensures i < j < |team| && p == SortPair(team[i], team[j])
  {
    if p in Row(team[0], team[1..]) {
      RowMembers(team[0], team[1..], p);
      var y :| y in team[1..] && p == SortPair(team[0], y);
      i := 0;
      j :| 1 <= j < |team| && team[j] == y;
    } else {
      i, j := PairsListed(team[1..], p);
      i, j := i + 1, j + 1;
    }
  }

  lemma {:induction false} PairsComplete(team: seq<string>, i: nat, j: nat)
    requires i < j < |team|
    ensures SortPair(team[i], team[j]) in Pairs(team)
    decreases i
  {
    if i == 0 {
      assert team[1..][j - 1] == team[j];
      RowMembers(team[0], team[1..], SortPair(team[0], team[j]));
    } else {
      PairsComplete(team[1..], i - 1, j - 1);
    }
  }

  // ---- building the index ----

  /** Weight of the index-th most recent match. */
  function RecencyWeight(index: nat): (r: real)
    ensures 0.35 <= r <= 1.35
  {
    var w := 1.35 - index as real * 0.15;
    if w < 0.35 then 0.35 else w
  }

  function FirstFive(ids: seq<string>): (r: seq<string>) {
    if |ids| > 5 then ids[..5] else ids
  }

  function Bump(h: map<string, PairSummary>, pair: (string, string), weight: real, matchId: string)
    : (r: map<string, PairSummary>)
  {
    var key := pair.0 + ":" + pair.1;
    var s := if key in h then h[key] else PairSummary(pair, 0, 0.0, []);
    h[key := PairSummary(s.userIds, s.sameTeamMatches + 1, s.weightedScore + weight,
                         FirstFive(s.recentMatchIds + [matchId]))]
  }

  function BumpAll(h: map<string, PairSummary>, pairs: seq<(string, string)>, weight: real, matchId: string)
    : (r: map<string, PairSummary>)
    decreases pairs
  {
    if pairs == [] then h else BumpAll(Bump(h, pairs[0], weight, matchId), pairs[1..], weight, matchId)
  }

  /** The requested users who played on one side of a match. */
  function TeamUserIds(players: seq<MatchPlayer>, side: TeamSide, users: set<string>): (r: seq<string>) {
    if players == [] then []
    else
      (if players[0].teamSide == Some(side) && players[0].userId in users then [players[0].userId] else [])
      + TeamUserIds(players[1..], side, users)
  }

  function AfterMatch(h: map<string, PairSummary>, m: RecentMatch, index: nat, users: set<string>)
    : (r: map<string, PairSummary>)
  {
    var w := RecencyWeight(index);
    BumpAll(BumpAll(h, Pairs(TeamUserIds(m.players, A, users)), w, m.id),
            Pairs(TeamUserIds(m.players, B, users)), w, m.id)
  }

  function AfterMatches(h: map<string, PairSummary>, ms: seq<RecentMatch>, index: nat, users: set<string>)
    : (r: map<string, PairSummary>)
    decreases ms
  {
    if ms == [] then h else AfterMatches(AfterMatch(h, ms[0], index, users), ms[1..], index + 1, users)
  }

  function HistoryOf(ms: seq<RecentMatch>, users: set<string>): (r: History) {
    History(|ms|, AfterMatches(map[], ms, 0, users))
  }

  /** The nested loops that fill the index. */
  method BuildMatchHistoryContext(recent: seq<RecentMatch>, userIds: seq<string>) returns (h: History)
    ensures h == HistoryOf(recent, Elements(userIds))
  {
    var users := set u | u in userIds;
    var index: map<string, PairSummary> := map[];
    var i := 0;
    while i < |recent|
      invariant i <= |recent|
      invariant AfterMatches(index, recent[i..], i, users) == AfterMatches(map[], recent, 0, users)
    {
      index := BumpTeam(index, TeamUserIds(recent[i].players, A, users), RecencyWeight(i), recent[i].id);
      index := BumpTeam(index, TeamUserIds(recent[i].players, B, users), RecencyWeight(i), recent[i].id);
      assert recent[i..][1..] == recent[i + 1..];
      i := i + 1;
    }
    h := History(|recent|, index);
  }

  lemma {:induction false} BumpAllConcat(
    h: map<string, PairSummary>, a: seq<(string, string)>, b: seq<(string, string)>, w: real, id: string)
    ensures BumpAll(h, a + b, w, id) == BumpAll(BumpAll(h, a, w, id), b, w, id)
    decreases a
  {
    if a == [] {
      assert a + b == b;
    } else {
      assert (a + b)[1..] == a[1..] + b;
      BumpAllConcat(Bump(h, a[0], w, id), a[1..], b, w, id);
    }
  }

  /** The inner loop: one player with everyone listed after them. */
  method BumpRow(h0: map<string, PairSummary>, x: string, rest: seq<string>, weight: real, matchId: string)
    returns (h: map<string, PairSummary>)
    ensures h == BumpAll(h0, Row(x, rest), weight, matchId)
  {
    h := h0;
    var right := 0;
    while right < |rest|
      invariant right <= |rest|
      invariant BumpAll(h, Row(x, rest[right..]), weight, matchId) == BumpAll(h0, Row(x, rest), weight, matchId)
    {
      assert rest[right..][1..] == rest[right + 1..];
      h := Bump(h, SortPair(x, rest[right]), weight, matchId);
      right := right + 1;
    }
  }

  method BumpTeam(h0: map<string, PairSummary>, team: seq<string>, weight: real, matchId: string)
    returns (h: map<string, PairSummary>)
    ensures h == BumpAll(h0, Pairs(team), weight, matchId)
  {
    h := h0;
    if |team| < 2 {
      assert |team| == 1 ==> team[1..] == [];
      return;
    }
    var left := 0;
    while left < |team|
      invariant left <= |team|
      invariant BumpAll(h, Pairs(team[left..]), weight, matchId) == BumpAll(h0, Pairs(team), weight, matchId)
    {
      assert team[left..][1..] == team[left + 1..];
      BumpAllConcat(h, Row(team[left], team[left + 1..]), Pairs(team[left + 1..]), weight, matchId);
      h := BumpRow(h, team[left], team[left + 1..], weight, matchId);
      left := left + 1;
    }
  }

  // ---- the index agrees with a direct count ----

  /** Both users were on the same side of m. */
  ghost predicate Together(m: RecentMatch, u: string, v: string) {
    exists side :: PlayedOn(m.players, u, side) && PlayedOn(m.players, v, side)
  }

  ghost predicate PlayedOn(players: seq<MatchPlayer>, u: string, side: TeamSide) {
    MatchPlayer(u, Some(side)) in players
  }

  ghost function SharedCount(ms: seq<RecentMatch>, u: string, v: string): nat {
    if ms == [] then 0 else (if Together(ms[0], u, v) then 1 else 0) + SharedCount(ms[1..], u, v)
  }

  ghost function SharedWeight(ms: seq<RecentMatch>, u: string, v: string, index: nat): real {
    if ms == [] then 0.0
    else (if Together(ms[0], u, v) then RecencyWeight(index) else 0.0) + SharedWeight(ms[1..], u, v, index + 1)
  }

  ghost function SharedIds(ms: seq<RecentMatch>, u: string, v: string): seq<string> {
    if ms == [] then []
    else (if Together(ms[0], u, v) then [ms[0].id] else []) + SharedIds(ms[1..], u, v)
  }

  /** One row per user in every match (unique key of the player table) and no ':' in the ids asked for. */
  ghost predicate WellFormed(ms: seq<RecentMatch>, users: set<string>) {
    && (forall m :: m in ms ==> UniquePlayers(m.players))
    && (forall u :: u in users ==> NoColon(u))
  }

  ghost predicate UniquePlayers(players: seq<MatchPlayer>) {
    forall i, j :: 0 <= i < j < |players| ==> players[i].userId != players[j].userId
  }

  function KeyOf(p: (string, string)): (r: string) {
    p.0 + ":" + p.1
  }

  ghost predicate Absent(pairs: seq<(string, string)>, key: string) {
    forall p :: p in pairs ==> KeyOf(p) != key
  }

  /** What the index records for a key, an absent key counting as an empty summary. */
  ghost function Recorded(h: map<string, PairSummary>, key: string): (nat, real, seq<string>) {
    if key in h then (h[key].sameTeamMatches, h[key].weightedScore, h[key].recentMatchIds) else (0, 0.0, [])
  }

  ghost function BumpedBy(r: (nat, real, seq<string>), weight: real, matchId: string): (nat, real, seq<string>) {
    (r.0 + 1, r.1 + weight, FirstFive(r.2 + [matchId]))
  }

  lemma {:induction false} BumpAllAbsent(
    h: map<string, PairSummary>, pairs: seq<(string, string)>, w: real, id: string, key: string)
    requires Absent(pairs, key)
    ensures Recorded(BumpAll(h, pairs, w, id), key) == Recorded(h, key)
    ensures key in BumpAll(h, pairs, w, id) <==> key in h
    decreases pairs
  {
    if pairs == [] {
    } else {
      assert pairs[0] in pairs;
      assert KeyOf(pairs[0]) != key;
      BumpAllAbsent(Bump(h, pairs[0], w, id), pairs[1..], w, id, key);
    }
  }

  lemma KeyOfSorted(x: string, y: string)
    ensures KeyOf(SortPair(x, y)) == PairKey(x, y)
  {
  }

  lemma RowAbsent(x: string, rest: seq<string>, u: string, v: string)
    requires NoColon(x) && NoColon(u) && NoColon(v) && forall y :: y in rest ==> NoColon(y)
    requires forall y :: y in rest ==> !(x == u && y == v) && !(x == v && y == u)
    ensures Absent(Row(x, rest), PairKey(u, v))
  {
    forall p | p in Row(x, rest) ensures KeyOf(p) != PairKey(u, v) {
      RowMembers(x, rest, p);
      var y :| y in rest && p == SortPair(x, y);
      PairKeyInjective(x, y, u, v);
      KeyOfSorted(x, y);
    }
  }

  lemma PairsAbsent(team: seq<string>, u: string, v: string)
    requires NoColon(u) && NoColon(v) && forall y :: y in team ==> NoColon(y)
    requires u !in team || v !in team
    ensures Absent(Pairs(team), PairKey(u, v))
  {
    forall p | p in Pairs(team) ensures KeyOf(p) != PairKey(u, v) {
      var i, j := PairsListed(team, p);
      PairKeyInjective(team[i], team[j], u, v);
      KeyOfSorted(team[i], team[j]);
    }
  }

  /** The pair {x, v} occurs exactly once in the row of x. */
  lemma {:induction false} RowBumpsOnce(
    h: map<string, PairSummary>, x: string, rest: seq<string>, v: string, w: real, id: string)
    requires v in rest && Distinct(rest) && NoColon(x) && forall y :: y in rest ==> NoColon(y)
    ensures Recorded(BumpAll(h, Row(x, rest), w, id), PairKey(x, v)) == BumpedBy(Recorded(h, PairKey(x, v)), w, id)
    decreases rest
  {
    var key := PairKey(x, v);
    var h1 := Bump(h, SortPair(x, rest[0]), w, id);
    KeyOfSorted(x, rest[0]);
    PairKeyInjective(x, rest[0], x, v);
    if rest[0] == v {
      RowAbsent(x, rest[1..], x, v);
      BumpAllAbsent(h1, Row(x, rest[1..]), w, id, key);
    } else {
      RowBumpsOnce(h1, x, rest[1..], v, w, id);
    }
  }

  lemma {:induction false} TeamBumps(
    h: map<string, PairSummary>, team: seq<string>, u: string, v: string, w: real, id: string)
    requires u != v && NoColon(u) && NoColon(v) && Distinct(team) && forall y :: y in team ==> NoColon(y)
    ensures var key := PairKey(u, v);
      Recorded(BumpAll(h, Pairs(team), w, id), key) ==
      if u in team && v in team then BumpedBy(Recorded(h, key), w, id) else Recorded(h, key)
    decreases team
  {
    var key := PairKey(u, v);
    if u !in team || v !in team {
      PairsAbsent(team, u, v);
      BumpAllAbsent(h, Pairs(team), w, id, key);
    } else {
      var x, rest := team[0], team[1..];
      var h1 := BumpAll(h, Row(x, rest), w, id);
      BumpAllConcat(h, Row(x, rest), Pairs(rest), w, id);
      if x == u || x == v {
        SortPairSymmetric(u, v);
        RowBumpsOnce(h, x, rest, if x == u then v else u, w, id);
        PairsAbsent(rest, u, v);
        BumpAllAbsent(h1, Pairs(rest), w, id, key);
      } else {
        RowAbsent(x, rest, u, v);
        BumpAllAbsent(h, Row(x, rest), w, id, key);
        TeamBumps(h1, rest, u, v, w, id);
      }
    }
  }

  lemma {:induction false} TeamUserIdsMembers(players: seq<MatchPlayer>, side: TeamSide, users: set<string>)
    requires UniquePlayers(players)
    ensures forall u :: u in TeamUserIds(players, side, users) <==> u in users && PlayedOn(players, u, side)
    ensures Distinct(TeamUserIds(players, side, users))
  {
    if players == [] {
    } else {
      var rest := players[1..];
      TeamUserIdsMembers(rest, side, users);
      var tail := TeamUserIds(rest, side, users);
      forall u ensures PlayedOn(players, u, side) <==>
        players[0] == MatchPlayer(u, Some(side)) || PlayedOn(rest, u, side) {
      }
      forall i | 0 <= i < |rest| ensures rest[i].userId != players[0].userId {
        assert players[i + 1] == rest[i];
      }
    }
  }

  /** A match changes the record of exactly the pairs that shared a side in it, and by one entry. */
  lemma MatchBumps(h: map<string, PairSummary>, m: RecentMatch, index: nat, users: set<string>, u: string, v: string)
    requires UniquePlayers(m.players) && (forall x :: x in users ==> NoColon(x))
    requires u in users && v in users && u != v
    ensures var key := PairKey(u, v);
      Recorded(AfterMatch(h, m, index, users), key) ==
      if Together(m, u, v) then BumpedBy(Recorded(h, key), RecencyWeight(index), m.id) else Recorded(h, key)
  {
    var w := RecencyWeight(index);
    var teamA, teamB := TeamUserIds(m.players, A, users), TeamUserIds(m.players, B, users);
    TeamUserIdsMembers(m.players, A, users);
    TeamUserIdsMembers(m.players, B, users);
    TeamBumps(h, teamA, u, v, w, m.id);
    TeamBumps(BumpAll(h, Pairs(teamA), w, m.id), teamB, u, v, w, m.id);
    OneSide(m.players, u);
    TogetherOnATeam(m, u, v);
  }

  lemma TogetherOnATeam(m: RecentMatch, u: string, v: string)
    ensures Together(m, u, v) <==>
      || (PlayedOn(m.players, u, A) && PlayedOn(m.players, v, A))
      || (PlayedOn(m.players, u, B) && PlayedOn(m.players, v, B))
  {
    if Together(m, u, v) {
      var side :| PlayedOn(m.players, u, side) && PlayedOn(m.players, v, side);
      assert side == A || side == B;
    }
  }

  lemma OneSide(players: seq<MatchPlayer>, u: string)
    requires UniquePlayers(players)
    ensures !(PlayedOn(players, u, A) && PlayedOn(players, u, B))
  {
  }

  lemma FirstFiveAbsorbs(a: seq<string>, b: seq<string>)
    ensures FirstFive(FirstFive(a) + b) == FirstFive(a + b)
  {
    if |a| > 5 {
      assert (a[..5] + b)[..5] == a[..5] == (a + b)[..5];
    }
  }

  /** The index agrees with counting the shared matches directly. */
  lemma {:induction false} IndexCounts(
    h: map<string, PairSummary>, ms: seq<RecentMatch>, index: nat, users: set<string>, u: string, v: string)
    requires WellFormed(ms, users) && u in users && v in users && u != v
    requires |Recorded(h, PairKey(u, v)).2| <= 5
    ensures var before, after := Recorded(h, PairKey(u, v)), Recorded(AfterMatches(h, ms, index, users), PairKey(u, v));
      && after.0 == before.0 + SharedCount(ms, u, v)
      && after.1 == before.1 + SharedWeight(ms, u, v, index)
      && after.2 == FirstFive(before.2 + SharedIds(ms, u, v))
    decreases ms
  {
    if ms == [] {
      var ids := Recorded(h, PairKey(u, v)).2;
      assert ids + [] == ids;
    } else {
      var key := PairKey(u, v);
      assert ms[0] in ms;
      MatchBumps(h, ms[0], index, users, u, v);
      var h1 := AfterMatch(h, ms[0], index, users);
      IndexCounts(h1, ms[1..], index + 1, users, u, v);
      IdsStep(Recorded(h, key).2, ms, u, v);
      assert AfterMatches(h, ms, index, users) == AfterMatches(h1, ms[1..], index + 1, users);
    }
  }

  lemma IdsStep(ids: seq<string>, ms: seq<RecentMatch>, u: string, v: string)
    requires ms != []
    ensures var after := if Together(ms[0], u, v) then FirstFive(ids + [ms[0].id]) else ids;
      FirstFive(after + SharedIds(ms[1..], u, v)) == FirstFive(ids + SharedIds(ms, u, v))
  {
    var more := SharedIds(ms[1..], u, v);
    if Together(ms[0], u, v) {
      ConcatAssociative(ids, [ms[0].id], more);
      FirstFiveAbsorbs(ids + [ms[0].id], more);
    } else {
      assert SharedIds(ms, u, v) == more;
    }
  }

  // ---- the repeat penalty ----

  function PairPenalty(sameTeamMatches: nat, weightedScore: real): (r: real) {
    var bonus := (if sameTeamMatches > 1 then (sameTeamMatches - 1) as real else 0.0) * 0.9;
    ToFixed4(weightedScore * 1.4 + bonus)
  }

  datatype PenalizedPair = PenalizedPair(
    userIds: (string, string), sameTeamMatches: nat, weightedScore: real, penalty: real, recentMatchIds: seq<string>)

  datatype PenaltyBreakdown = PenaltyBreakdown(
    totalPenalty: real, repeatedDuoCount: nat, penalizedPairs: seq<PenalizedPair>)

  /** The entry of one pair, none when it is not indexed. */
  function Penalized(h: History, users: set<string>, pair: (string, string)): (r: Option<PenalizedPair>) {
    var key := PairKey(pair.0, pair.1);
    if key !in h.pairs || pair.0 !in users || pair.1 !in users then None
    else
      var s := h.pairs[key];
      var penalty := PairPenalty(s.sameTeamMatches, s.weightedScore);
      if penalty <= 0.0 then None
      else Some(PenalizedPair(s.userIds, s.sameTeamMatches, ToFixed4(s.weightedScore), penalty, s.recentMatchIds))
  }

  function AllPenalized(h: History, users: set<string>, pairs: seq<(string, string)>): (r: seq<PenalizedPair>) {
    if pairs == [] then []
    else
      var p := Penalized(h, users, pairs[0]);
      (if p.Some? then [p.value] else []) + AllPenalized(h, users, pairs[1..])
  }

  function InsertByPenalty(p: PenalizedPair, ps: seq<PenalizedPair>): (r: seq<PenalizedPair>) {
    if ps == [] || ps[0].penalty <= p.penalty then [p] + ps else [ps[0]] + InsertByPenalty(p, ps[1..])
  }

  /** The stable sort by descending penalty. */
  function ByPenalty(ps: seq<PenalizedPair>): (r: seq<PenalizedPair>) {
    if ps == [] then [] else InsertByPenalty(ps[0], ByPenalty(ps[1..]))
  }

  function TotalPenalty(ps: seq<PenalizedPair>): (r: real) {
    if ps == [] then 0.0 else ps[0].penalty + TotalPenalty(ps[1..])
  }

  function CountDuos(ps: seq<PenalizedPair>): (r: nat) {
    if ps == [] then 0 else (if ps[0].sameTeamMatches >= 2 then 1 else 0) + CountDuos(ps[1..])
  }

  function FirstSix(ps: seq<PenalizedPair>): (r: seq<PenalizedPair>) {
    if |ps| <= 6 then ps else ps[..6]
  }

  function BreakdownOf(history: Option<History>, teamA: seq<string>, teamB: seq<string>): (r: PenaltyBreakdown) {
    if history.None? || history.value.matchesAnalyzed == 0 then PenaltyBreakdown(0.0, 0, [])
    else
      var users := Elements(teamA + teamB);
      var ofA := AllPenalized(history.value, users, Pairs(teamA));
      var ofB := AllPenalized(history.value, users, Pairs(teamB));
      var ps := ByPenalty(ofA + ofB);
      PenaltyBreakdown(TotalPenalty(ps), CountDuos(ps), FirstSix(ps))
  }

  method CalculateRepeatTeamPenalty(history: Option<History>, teamA: seq<string>, teamB: seq<string>)
    returns (b: PenaltyBreakdown)
    ensures b == BreakdownOf(history, teamA, teamB)
    ensures b.totalPenalty == RepeatPenalty(history, teamA, teamB)
  {
    if history.None? || history.value.matchesAnalyzed == 0 {
      return PenaltyBreakdown(0.0, 0, []);
    }
    var users := set u | u in teamA + teamB;
    var ofA := PenalizeTeam(history.value, users, teamA);
    var ofB := PenalizeTeam(history.value, users, teamB);
    TotalIsSum(history.value, users, Pairs(teamA), Pairs(teamB));
    var ps := ByPenalty(ofA + ofB);
    b := PenaltyBreakdown(TotalPenalty(ps), CountDuos(ps), FirstSix(ps));
  }

  method PenalizeTeam(h: History, users: set<string>, team: seq<string>) returns (ps: seq<PenalizedPair>)
    ensures ps == AllPenalized(h, users, Pairs(team))
  {
    var pairs := BuildPairs(team);
    ps := [];
    var i := 0;
    while i < |pairs|
      invariant i <= |pairs|
      invariant ps + AllPenalized(h, users, pairs[i..]) == AllPenalized(h, users, pairs)
    {
      var p := Penalized(h, users, pairs[i]);
      AppendPresent(ps, p, AllPenalized(h, users, pairs[i + 1..]));
      assert pairs[i..][1..] == pairs[i + 1..];
      if p.Some? {
        ps := ps + [p.value];
      }
      i := i + 1;
    }
    assert ps + [] == ps;
  }

  // ---- what the breakdown says ----

  /** The penalty of one pair, zero when it is not indexed. */
  function IndexedPenalty(h: History, users: set<string>, pair: (string, string)): (r: real) {
    var p := Penalized(h, users, pair);
    if p.Some? then p.value.penalty else 0.0
  }

  function PenaltySum(h: History, users: set<string>, pairs: seq<(string, string)>): (r: real) {
    if pairs == [] then 0.0 else IndexedPenalty(h, users, pairs[0]) + PenaltySum(h, users, pairs[1..])
  }

  function RepeatPenalty(history: Option<History>, teamA: seq<string>, teamB: seq<string>): (r: real) {
    if history.None? || history.value.matchesAnalyzed == 0 then 0.0
    else
      var users := Elements(teamA + teamB);
      PenaltySum(history.value, users, Pairs(teamA)) + PenaltySum(history.value, users, Pairs(teamB))
  }

  lemma {:induction false} InsertedPenalty(p: PenalizedPair, ps: seq<PenalizedPair>)
    ensures TotalPenalty(InsertByPenalty(p, ps)) == p.penalty + TotalPenalty(ps)
    ensures CountDuos(InsertByPenalty(p, ps)) == (if p.sameTeamMatches >= 2 then 1 else 0) + CountDuos(ps)
    ensures multiset(InsertByPenalty(p, ps)) == multiset{p} + multiset(ps)
  {
    if ps == [] || ps[0].penalty <= p.penalty {
      assert ([p] + ps)[1..] == ps;
    } else {
      InsertedPenalty(p, ps[1..]);
      var r := InsertByPenalty(p, ps);
      assert r == [ps[0]] + InsertByPenalty(p, ps[1..]) && r[1..] == InsertByPenalty(p, ps[1..]);
      assert ps == [ps[0]] + ps[1..];
    }
  }

  /** Sorting changes neither the total nor the duo count. */
  lemma {:induction false} SortedPenalty(ps: seq<PenalizedPair>)
    ensures TotalPenalty(ByPenalty(ps)) == TotalPenalty(ps)
    ensures CountDuos(ByPenalty(ps)) == CountDuos(ps)
    ensures multiset(ByPenalty(ps)) == multiset(ps)
  {
    if ps == [] {
    } else {
      SortedPenalty(ps[1..]);
      InsertedPenalty(ps[0], ByPenalty(ps[1..]));
      assert ps == [ps[0]] + ps[1..];
    }
  }

  lemma {:induction false} PenalizedConcat(a: seq<PenalizedPair>, b: seq<PenalizedPair>)
    ensures TotalPenalty(a + b) == TotalPenalty(a) + TotalPenalty(b)
    ensures CountDuos(a + b) == CountDuos(a) + CountDuos(b)
  {
    if a == [] {
      assert a + b == b;
    } else {
      assert (a + b)[1..] == a[1..] + b;
      PenalizedConcat(a[1..], b);
    }
  }

  lemma {:induction false} PenalizedTotal(h: History, users: set<string>, pairs: seq<(string, string)>)
    ensures TotalPenalty(AllPenalized(h, users, pairs)) == PenaltySum(h, users, pairs)
  {
    if pairs == [] {
    } else {
      PenalizedTotal(h, users, pairs[1..]);
      var p := Penalized(h, users, pairs[0]);
      if p.Some? {
        assert AllPenalized(h, users, pairs)[1..] == AllPenalized(h, users, pairs[1..]);
      } else {
        assert AllPenalized(h, users, pairs) == AllPenalized(h, users, pairs[1..]);
      }
    }
  }

  lemma TotalIsSum(h: History, users: set<string>, a: seq<(string, string)>, b: seq<(string, string)>)
    ensures TotalPenalty(ByPenalty(AllPenalized(h, users, a) + AllPenalized(h, users, b)))
         == PenaltySum(h, users, a) + PenaltySum(h, users, b)
  {
    SortedPenalty(AllPenalized(h, users, a) + AllPenalized(h, users, b));
    PenalizedConcat(AllPenalized(h, users, a), AllPenalized(h, users, b));
    PenalizedTotal(h, users, a);
    PenalizedTotal(h, users, b);
  }

  ghost predicate Falling(ps: seq<PenalizedPair>) {
    forall i, j :: 0 <= i < j < |ps| ==> ps[i].penalty >= ps[j].penalty
  }

  lemma {:induction false} InsertFalls(p: PenalizedPair, ps: seq<PenalizedPair>)
    requires Falling(ps)
    ensures Falling(InsertByPenalty(p, ps))
    ensures forall q :: q in InsertByPenalty(p, ps) <==> q == p || q in ps
  {
    if ps == [] || ps[0].penalty <= p.penalty {
    } else {
      InsertFalls(p, ps[1..]);
      var rest := InsertByPenalty(p, ps[1..]);
      forall j | 0 <= j < |rest| ensures ps[0].penalty >= rest[j].penalty {
        assert rest[j] in rest;
      }
    }
  }

  lemma {:induction false} SortFalls(ps: seq<PenalizedPair>)
    ensures Falling(ByPenalty(ps))
    ensures forall q :: q in ByPenalty(ps) <==> q in ps
  {
    if ps == [] {
    } else {
      SortFalls(ps[1..]);
      InsertFalls(ps[0], ByPenalty(ps[1..]));
    }
  }

  /** The sorted list is the reported pairs followed by the hidden ones. */
  lemma FirstSixAreHeaviest(all: seq<PenalizedPair>) returns (hidden: seq<PenalizedPair>)
    ensures var shown := FirstSix(ByPenalty(all));
      && |shown| <= 6 && (hidden != [] ==> |shown| == 6)
      && multiset(shown + hidden) == multiset(all) && Falling(shown + hidden)
  {
    var sorted := ByPenalty(all);
    SortFalls(all);
    SortedPenalty(all);
    hidden := if |sorted| <= 6 then [] else sorted[6..];
    assert sorted == FirstSix(sorted) + hidden;
  }

  /** The reported pairs are at most six of the penalized ones, heaviest first; when some are hidden six are
      reported, and none of the hidden ones is heavier. */
  lemma ReportedAreHeaviest(h: History, teamA: seq<string>, teamB: seq<string>) returns (hidden: seq<PenalizedPair>)
    requires h.matchesAnalyzed > 0
    ensures var users := Elements(teamA + teamB);
      var shown := BreakdownOf(Some(h), teamA, teamB).penalizedPairs;
      && |shown| <= 6 && (hidden != [] ==> |shown| == 6) && Falling(shown + hidden)
      && multiset(shown + hidden)
           == multiset(AllPenalized(h, users, Pairs(teamA)) + AllPenalized(h, users, Pairs(teamB)))
  {
    var users := Elements(teamA + teamB);
    hidden := FirstSixAreHeaviest(AllPenalized(h, users, Pairs(teamA)) + AllPenalized(h, users, Pairs(teamB)));
  }

  /** Team-mate pairs that shared a side at least twice, counted straight from the matches. */
  ghost function DirectDuos(ms: seq<RecentMatch>, pairs: seq<(string, string)>): nat {
    if pairs == [] then 0
    else (if SharedCount(ms, pairs[0].0, pairs[0].1) >= 2 then 1 else 0) + DirectDuos(ms, pairs[1..])
  }

  lemma DuoIsDirect(ms: seq<RecentMatch>, users: set<string>, asked: set<string>, u: string, v: string)
    requires WellFormed(ms, users) && asked <= users && u in asked && v in asked && u != v
    ensures var p := Penalized(HistoryOf(ms, users), asked, (u, v));
      && (p.Some? <==> SharedCount(ms, u, v) > 0)
      && (p.Some? ==> p.value.sameTeamMatches == SharedCount(ms, u, v))
  {
    IndexedSummary(ms, users, u, v);
    if SharedCount(ms, u, v) > 0 {
      WeightPositive(ms, u, v, 0);
      PenaltyPositive(SharedCount(ms, u, v), SharedWeight(ms, u, v, 0));
    }
  }

  lemma {:induction false} DuosAreDirect(
    ms: seq<RecentMatch>, users: set<string>, asked: set<string>, pairs: seq<(string, string)>)
    requires WellFormed(ms, users) && asked <= users
    requires forall p :: p in pairs ==> p.0 in asked && p.1 in asked && p.0 != p.1
    ensures CountDuos(AllPenalized(HistoryOf(ms, users), asked, pairs)) == DirectDuos(ms, pairs)
    decreases pairs
  {
    if pairs == [] {
    } else {
      assert pairs[0] in pairs;
      DuoIsDirect(ms, users, asked, pairs[0].0, pairs[0].1);
      DuosAreDirect(ms, users, asked, pairs[1..]);
      var h := HistoryOf(ms, users);
      var p := Penalized(h, asked, pairs[0]);
      if p.Some? {
        assert AllPenalized(h, asked, pairs)[1..] == AllPenalized(h, asked, pairs[1..]);
      } else {
        assert AllPenalized(h, asked, pairs) == AllPenalized(h, asked, pairs[1..]);
      }
    }
  }

  /** The penalty computed straight from the matches. */
  ghost function DirectPenalty(ms: seq<RecentMatch>, pairs: seq<(string, string)>): real {
    if pairs == [] then 0.0
    else
      var (u, v) := pairs[0];
      (if SharedCount(ms, u, v) > 0 then PairPenalty(SharedCount(ms, u, v), SharedWeight(ms, u, v, 0)) else 0.0)
      + DirectPenalty(ms, pairs[1..])
  }

  lemma {:induction false} WeightPositive(ms: seq<RecentMatch>, u: string, v: string, index: nat)
    ensures SharedWeight(ms, u, v, index) >= 0.35 * SharedCount(ms, u, v) as real
  {
    if ms == [] {
    } else {
      WeightPositive(ms[1..], u, v, index + 1);
    }
  }

  lemma PenaltyPositive(count: nat, weight: real)
    requires count > 0 && weight >= 0.35 * count as real
    ensures PairPenalty(count, weight) > 0.0
  {
    var x := weight * 1.4 + (if count > 1 then (count - 1) as real else 0.0) * 0.9;
    assert x >= 0.49;
    assert Nearest(x * 10000.0) >= 1;
  }

  lemma IndexedSummary(ms: seq<RecentMatch>, users: set<string>, u: string, v: string)
    requires WellFormed(ms, users) && u in users && v in users && u != v
    ensures var h, key := HistoryOf(ms, users).pairs, PairKey(u, v);
      && (key in h <==> SharedCount(ms, u, v) > 0)
      && (key in h ==> h[key].sameTeamMatches == SharedCount(ms, u, v))
      && (key in h ==> h[key].weightedScore == SharedWeight(ms, u, v, 0))
  {
    IndexCounts(map[], ms, 0, users, u, v);
    KeysAreCounted(map[], ms, 0, users, PairKey(u, v));
  }

  lemma IndexedIsDirect(ms: seq<RecentMatch>, users: set<string>, asked: set<string>, u: string, v: string)
    requires WellFormed(ms, users) && asked <= users && u in asked && v in asked && u != v
    ensures IndexedPenalty(HistoryOf(ms, users), asked, (u, v)) ==
      if SharedCount(ms, u, v) > 0 then PairPenalty(SharedCount(ms, u, v), SharedWeight(ms, u, v, 0)) else 0.0
  {
    IndexedSummary(ms, users, u, v);
    if SharedCount(ms, u, v) > 0 {
      WeightPositive(ms, u, v, 0);
      PenaltyPositive(SharedCount(ms, u, v), SharedWeight(ms, u, v, 0));
    }
  }

  lemma IndexedZeroExactly(ms: seq<RecentMatch>, users: set<string>, asked: set<string>, u: string, v: string)
    requires WellFormed(ms, users) && asked <= users && u in asked && v in asked && u != v
    ensures IndexedPenalty(HistoryOf(ms, users), asked, (u, v)) == 0.0 <==> SharedCount(ms, u, v) == 0
    ensures IndexedPenalty(HistoryOf(ms, users), asked, (u, v)) >= 0.0
  {
    IndexedIsDirect(ms, users, asked, u, v);
    if SharedCount(ms, u, v) > 0 {
      WeightPositive(ms, u, v, 0);
      PenaltyPositive(SharedCount(ms, u, v), SharedWeight(ms, u, v, 0));
    }
  }

  lemma {:induction false} BumpAllKeysCounted(
    h: map<string, PairSummary>, pairs: seq<(string, string)>, w: real, id: string, key: string)
    requires key in h ==> h[key].sameTeamMatches > 0
    ensures var r := BumpAll(h, pairs, w, id); key in r ==> r[key].sameTeamMatches > 0
    decreases pairs
  {
    if pairs == [] {
    } else {
      BumpAllKeysCounted(Bump(h, pairs[0], w, id), pairs[1..], w, id, key);
    }
  }

  lemma {:induction false} KeysAreCounted(
    h: map<string, PairSummary>, ms: seq<RecentMatch>, index: nat, users: set<string>, key: string)
    requires key in h ==> h[key].sameTeamMatches > 0
    ensures var r := AfterMatches(h, ms, index, users); key in r ==> r[key].sameTeamMatches > 0
    decreases ms
  {
    if ms == [] {
    } else {
      var w := RecencyWeight(index);
      var pairsA := Pairs(TeamUserIds(ms[0].players, A, users));
      BumpAllKeysCounted(h, pairsA, w, ms[0].id, key);
      BumpAllKeysCounted(BumpAll(h, pairsA, w, ms[0].id), Pairs(TeamUserIds(ms[0].players, B, users)), w, ms[0].id,
                         key);
      KeysAreCounted(AfterMatch(h, ms[0], index, users), ms[1..], index + 1, users, key);
    }
  }

  lemma {:induction false} SumIsDirect(
    ms: seq<RecentMatch>, users: set<string>, asked: set<string>, pairs: seq<(string, string)>)
    requires WellFormed(ms, users) && asked <= users
    requires forall p :: p in pairs ==> p.0 in asked && p.1 in asked && p.0 != p.1
    ensures PenaltySum(HistoryOf(ms, users), asked, pairs) == DirectPenalty(ms, pairs)
    ensures DirectPenalty(ms, pairs) >= 0.0
    ensures DirectPenalty(ms, pairs) == 0.0 <==> forall p :: p in pairs ==> SharedCount(ms, p.0, p.1) == 0
    decreases pairs
  {
    if pairs == [] {
    } else {
      assert pairs[0] in pairs;
      IndexedIsDirect(ms, users, asked, pairs[0].0, pairs[0].1);
      IndexedZeroExactly(ms, users, asked, pairs[0].0, pairs[0].1);
      SumIsDirect(ms, users, asked, pairs[1..]);
    }
  }

  ghost predicate EverTogether(ms: seq<RecentMatch>, u: string, v: string) {
    exists m :: m in ms && Together(m, u, v)
  }

  lemma {:induction false} CountZero(ms: seq<RecentMatch>, u: string, v: string)
    ensures SharedCount(ms, u, v) == 0 <==> !EverTogether(ms, u, v)
  {
    if ms == [] {
    } else {
      CountZero(ms[1..], u, v);
      assert EverTogether(ms, u, v) <==> Together(ms[0], u, v) || EverTogether(ms[1..], u, v);
    }
  }

  lemma PairsProper(team: seq<string>, asked: set<string>)
    requires Distinct(team) && Elements(team) <= asked
    ensures forall p :: p in Pairs(team) ==> p.0 in asked && p.1 in asked && p.0 != p.1
  {
    forall p | p in Pairs(team) ensures p.0 in asked && p.1 in asked && p.0 != p.1 {
      var i, j := PairsListed(team, p);
      assert team[i] in Elements(team) && team[j] in Elements(team);
    }
  }

  lemma PairsTogether(ms: seq<RecentMatch>, team: seq<string>)
    ensures (forall p :: p in Pairs(team) ==> SharedCount(ms, p.0, p.1) == 0) <==>
            forall i, j :: 0 <= i < j < |team| ==> !EverTogether(ms, team[i], team[j])
  {
    if forall p :: p in Pairs(team) ==> SharedCount(ms, p.0, p.1) == 0 {
      forall i, j | 0 <= i < j < |team| ensures !EverTogether(ms, team[i], team[j]) {
        var p := SortPair(team[i], team[j]);
        PairsComplete(team, i, j);
        CountZero(ms, p.0, p.1);
      }
    }
    if forall i, j :: 0 <= i < j < |team| ==> !EverTogether(ms, team[i], team[j]) {
      forall p | p in Pairs(team) ensures SharedCount(ms, p.0, p.1) == 0 {
        var i, j := PairsListed(team, p);
        assert !EverTogether(ms, team[i], team[j]);
        CountZero(ms, p.0, p.1);
      }
    }
  }

  /** The repeat penalty of a split, read from the index, is the sum over team-mate pairs computed
      straight from the recent matches. */
  lemma RepeatPenaltyIsDirect(ms: seq<RecentMatch>, users: set<string>, teamA: seq<string>, teamB: seq<string>)
    requires WellFormed(ms, users) && Distinct(teamA) && Distinct(teamB) && Elements(teamA + teamB) <= users
    ensures RepeatPenalty(Some(HistoryOf(ms, users)), teamA, teamB)
         == DirectPenalty(ms, Pairs(teamA)) + DirectPenalty(ms, Pairs(teamB))
    ensures DirectPenalty(ms, Pairs(teamA)) >= 0.0 && DirectPenalty(ms, Pairs(teamB)) >= 0.0
  {
    var asked := Elements(teamA + teamB);
    PairsProper(teamA, asked);
    PairsProper(teamB, asked);
    SumIsDirect(ms, users, asked, Pairs(teamA));
    SumIsDirect(ms, users, asked, Pairs(teamB));
    if ms == [] {
      NoMatchesNoPenalty(Pairs(teamA));
      NoMatchesNoPenalty(Pairs(teamB));
    }
  }

  lemma {:induction false} NoMatchesNoPenalty(pairs: seq<(string, string)>)
    ensures DirectPenalty([], pairs) == 0.0 && DirectDuos([], pairs) == 0
  {
    if pairs == [] {
    } else {
      NoMatchesNoPenalty(pairs[1..]);
    }
  }

  lemma TeamPenaltyZero(ms: seq<RecentMatch>, users: set<string>, team: seq<string>)
    requires WellFormed(ms, users) && Distinct(team) && Elements(team) <= users
    ensures DirectPenalty(ms, Pairs(team)) == 0.0 <==>
      forall i, j :: 0 <= i < j < |team| ==> !EverTogether(ms, team[i], team[j])
  {
    PairsProper(team, Elements(team));
    SumIsDirect(ms, users, Elements(team), Pairs(team));
    PairsTogether(ms, team);
  }

  /** It vanishes exactly when no team-mates of the split ever shared a side. */
  lemma RepeatPenaltyZeroExactly(ms: seq<RecentMatch>, users: set<string>, teamA: seq<string>, teamB: seq<string>)
    requires WellFormed(ms, users) && Distinct(teamA) && Distinct(teamB) && Elements(teamA + teamB) <= users
    ensures RepeatPenalty(Some(HistoryOf(ms, users)), teamA, teamB) == 0.0 <==>
      && (forall i, j :: 0 <= i < j < |teamA| ==> !EverTogether(ms, teamA[i], teamA[j]))
      && (forall i, j :: 0 <= i < j < |teamB| ==> !EverTogether(ms, teamB[i], teamB[j]))
  {
    RepeatPenaltyIsDirect(ms, users, teamA, teamB);
    ElementsConcat(teamA, teamB);
    TeamPenaltyZero(ms, users, teamA);
    TeamPenaltyZero(ms, users, teamB);
  }

  lemma ElementsConcat(a: seq<string>, b: seq<string>)
    ensures Elements(a + b) == Elements(a) + Elements(b)
  {
  }

  /** The repeated duos of a split are the team-mate pairs that shared a side at least twice. */
  lemma RepeatedDuosAreDirect(ms: seq<RecentMatch>, users: set<string>, teamA: seq<string>, teamB: seq<string>)
    requires WellFormed(ms, users) && Distinct(teamA) && Distinct(teamB) && Elements(teamA + teamB) <= users
    ensures BreakdownOf(Some(HistoryOf(ms, users)), teamA, teamB).repeatedDuoCount
         == DirectDuos(ms, Pairs(teamA)) + DirectDuos(ms, Pairs(teamB))
  {
    var h, asked := HistoryOf(ms, users), Elements(teamA + teamB);
    if ms == [] {
      NoMatchesNoPenalty(Pairs(teamA));
      NoMatchesNoPenalty(Pairs(teamB));
    } else {
      PairsProper(teamA, asked);
      PairsProper(teamB, asked);
      DuosAreDirect(ms, users, asked, Pairs(teamA));
      DuosAreDirect(ms, users, asked, Pairs(teamB));
      SortedPenalty(AllPenalized(h, asked, Pairs(teamA)) + AllPenalized(h, asked, Pairs(teamB)));
      PenalizedConcat(AllPenalized(h, asked, Pairs(teamA)), AllPenalized(h, asked, Pairs(teamB)));
    }
  }
}
