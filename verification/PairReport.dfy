/** The numbers behind the repeat penalty, and what the report of one split says about a pair. */
module PairReport {
  import opened Domain
  import opened PairHistory
  import opened Prelude
  import opened Rounding

  // ---- weights and penalties ----

  /** The newest match weighs 1.35; each earlier one 0.15 less, down to 0.35 from the eighth on. */
  lemma RecencyFalls(index: nat)
    ensures RecencyWeight(0) == 1.35
    ensures index < 6 ==> RecencyWeight(index + 1) == RecencyWeight(index) - 0.15
    ensures index >= 7 ==> RecencyWeight(index) == 0.35
    ensures RecencyWeight(index + 1) <= RecencyWeight(index)
  {
  }

  /** A pair with n shared matches of total weight w costs 1.4 w and 0.9 for every match after the first, to within
      half of the last of four digits; a further match never makes it cheaper. */
  lemma PairPenaltyInWords(n: nat, w: real, more: real)
    requires n > 0 && more >= 0.0
    ensures -0.00005 <= PairPenalty(n, w) - (1.4 * w + 0.9 * (n - 1) as real) <= 0.00005
    ensures PairPenalty(n, w) <= PairPenalty(n + 1, w + more)
  {
    var x, y := w * 1.4 + (n - 1) as real * 0.9, (w + more) * 1.4 + n as real * 0.9;
    FixedIsClosest(x);
    NearestMonotone(x * 10000.0, y * 10000.0);
  }

  // ---- the order inside a pair ----

  /** a comes before b as a string: a proper prefix of it, or smaller at the first difference. */
  ghost predicate Before(a: string, b: string) {
    (|a| < |b| && a == b[..|a|]) || exists i: nat :: CharLess(a, b, i)
  }

  ghost predicate CharLess(a: string, b: string, i: nat) {
    i < |a| && i < |b| && a[..i] == b[..i] && a[i] < b[i]
  }

  lemma {:induction false} StringLessIsBefore(a: string, b: string)
    ensures StringLess(a, b) <==> Before(a, b)
  {
    if a == [] || b == [] {
    } else if a[0] != b[0] {
      assert CharLess(a, b, 0) <==> a[0] < b[0];
      forall i: nat | CharLess(a, b, i) ensures i > 0 ==> a[0] == b[0] {
        SameHead(a, b, i);
      }
    } else {
      StringLessIsBefore(a[1..], b[1..]);
      BeforeTail(a, b);
    }
  }

  lemma SameHead(a: string, b: string, i: nat)
    requires CharLess(a, b, i)
    ensures i > 0 ==> a[0] == b[0]
  {
    assert i > 0 ==> a[..i][0] == a[0] && b[..i][0] == b[0];
  }

  lemma BeforeTail(a: string, b: string)
    requires a != [] && b != [] && a[0] == b[0]
    ensures Before(a, b) <==> Before(a[1..], b[1..])
  {
    assert a == [a[0]] + a[1..] && b == [b[0]] + b[1..];
    if |a| < |b| {
      assert b[..|a|] == [b[0]] + b[1..][..|a| - 1];
    }
    if i: nat :| CharLess(a, b, i) {
      assert i > 0;
      assert a[1..][..i - 1] == a[..i][1..] && b[1..][..i - 1] == b[..i][1..];
      assert i > 0 && CharLess(a[1..], b[1..], i - 1);
    }
    if i: nat :| CharLess(a[1..], b[1..], i) {
      assert a[..i + 1] == [a[0]] + a[1..][..i] && b[..i + 1] == [b[0]] + b[1..][..i];
      assert CharLess(a, b, i + 1);
    }
  }

  /** A reported pair names its two users in string order. */
  lemma PairInOrder(u: string, v: string)
    requires u != v
    ensures SortPair(u, v) == (if Before(u, v) then (u, v) else (v, u))
    ensures Before(SortPair(u, v).0, SortPair(u, v).1)
  {
    StringLessIsBefore(u, v);
    StringLessIsBefore(v, u);
    StringLessTotal(u, v);
  }

  // ---- the entries of the report ----

  /** Every indexed summary names the pair of its key. */
  ghost predicate NamesPairs(h: map<string, PairSummary>) {
    forall key :: key in h ==> KeyOf(h[key].userIds) == key && NoColon(h[key].userIds.0)
  }

  lemma {:induction false} BumpAllNames(
    h: map<string, PairSummary>, pairs: seq<(string, string)>, w: real, id: string)
    requires NamesPairs(h) && forall p :: p in pairs ==> NoColon(p.0)
    ensures NamesPairs(BumpAll(h, pairs, w, id))
    decreases pairs
  {
    if pairs == [] {
    } else {
      assert pairs[0] in pairs;
      BumpAllNames(Bump(h, pairs[0], w, id), pairs[1..], w, id);
    }
  }

  lemma TeamPairsPlain(players: seq<MatchPlayer>, side: TeamSide, users: set<string>)
    requires UniquePlayers(players) && forall u :: u in users ==> NoColon(u)
    ensures forall p :: p in Pairs(TeamUserIds(players, side, users)) ==> NoColon(p.0)
  {
    var team := TeamUserIds(players, side, users);
    TeamUserIdsMembers(players, side, users);
    PairsProper(team, Elements(team));
  }

  lemma {:induction false} AfterMatchesNames(
    h: map<string, PairSummary>, ms: seq<RecentMatch>, index: nat, users: set<string>)
    requires WellFormed(ms, users) && NamesPairs(h)
    ensures NamesPairs(AfterMatches(h, ms, index, users))
    decreases ms
  {
    if ms == [] {
    } else {
      assert ms[0] in ms;
      TeamPairsPlain(ms[0].players, A, users);
      TeamPairsPlain(ms[0].players, B, users);
      var w, pairsA := RecencyWeight(index), Pairs(TeamUserIds(ms[0].players, A, users));
      BumpAllNames(h, pairsA, w, ms[0].id);
      BumpAllNames(BumpAll(h, pairsA, w, ms[0].id), Pairs(TeamUserIds(ms[0].players, B, users)), w, ms[0].id);
      AfterMatchesNames(AfterMatch(h, ms[0], index, users), ms[1..], index + 1, users);
    }
  }

  /** What there is to report about a pair, straight from the recent matches. */
  ghost function DirectEntry(ms: seq<RecentMatch>, pair: (string, string)): PenalizedPair {
    var n, w := SharedCount(ms, pair.0, pair.1), SharedWeight(ms, pair.0, pair.1, 0);
    var ids := SharedIds(ms, pair.0, pair.1);
    PenalizedPair(pair, n, ToFixed4(w), PairPenalty(n, w), if |ids| > 5 then ids[..5] else ids)
  }

  lemma IndexedNames(ms: seq<RecentMatch>, users: set<string>, u: string, v: string)
    requires WellFormed(ms, users) && u in users && v in users && PairKey(u, v) in HistoryOf(ms, users).pairs
    ensures HistoryOf(ms, users).pairs[PairKey(u, v)].userIds == SortPair(u, v)
  {
    AfterMatchesNames(map[], ms, 0, users);
    KeyOfSorted(u, v);
    var named, sorted := HistoryOf(ms, users).pairs[PairKey(u, v)].userIds, SortPair(u, v);
    assert NoColon(u) && NoColon(v);
    SplitAtSeparator(':', named.0, named.1, sorted.0, sorted.1);
  }

  /** A pair has an entry exactly when it shared a match, and the entry tells just that. */
  lemma EntryIsDirect(ms: seq<RecentMatch>, users: set<string>, asked: set<string>, u: string, v: string)
    requires WellFormed(ms, users) && asked <= users && u in asked && v in asked && u != v
    ensures var pair := SortPair(u, v);
      Penalized(HistoryOf(ms, users), asked, pair)
        == if SharedCount(ms, pair.0, pair.1) > 0 then Some(DirectEntry(ms, pair)) else None
  {
    var pair, key := SortPair(u, v), PairKey(u, v);
    SortPairSymmetric(u, v);
    IndexedSummary(ms, users, pair.0, pair.1);
    IndexCounts(map[], ms, 0, users, pair.0, pair.1);
    if SharedCount(ms, pair.0, pair.1) > 0 {
      IndexedNames(ms, users, u, v);
      WeightPositive(ms, pair.0, pair.1, 0);
      PenaltyPositive(SharedCount(ms, pair.0, pair.1), SharedWeight(ms, pair.0, pair.1, 0));
      assert [] + SharedIds(ms, pair.0, pair.1) == SharedIds(ms, pair.0, pair.1);
    }
  }

  lemma {:induction false} PenalizedMembers(h: History, users: set<string>, pairs: seq<(string, string)>,
                                            p: PenalizedPair)
    ensures p in AllPenalized(h, users, pairs) <==> exists pair :: pair in pairs && Penalized(h, users, pair) == Some(p)
  {
    if pairs == [] {
    } else {
      PenalizedMembers(h, users, pairs[1..], p);
      assert forall pair :: pair in pairs <==> pair == pairs[0] || pair in pairs[1..];
    }
  }

  /** p is the direct entry of two team-mates who shared a match. */
  ghost predicate EntryOfTeam(ms: seq<RecentMatch>, team: seq<string>, p: PenalizedPair) {
    exists i: nat, j: nat :: EntryAt(ms, team, i, j, p)
  }

  ghost predicate EntryAt(ms: seq<RecentMatch>, team: seq<string>, i: nat, j: nat, p: PenalizedPair) {
    && i < j < |team|
    && p == DirectEntry(ms, SortPair(team[i], team[j])) && p.sameTeamMatches > 0
  }

  lemma TeamEntries(ms: seq<RecentMatch>, users: set<string>, asked: set<string>, team: seq<string>, p: PenalizedPair)
    requires WellFormed(ms, users) && asked <= users && Distinct(team) && Elements(team) <= asked
    ensures p in AllPenalized(HistoryOf(ms, users), asked, Pairs(team)) <==> EntryOfTeam(ms, team, p)
  {
    var h := HistoryOf(ms, users);
    PenalizedMembers(h, asked, Pairs(team), p);
    forall i: nat, j: nat | i < j < |team|
      ensures SortPair(team[i], team[j]) in Pairs(team)
      ensures Penalized(h, asked, SortPair(team[i], team[j])) == Some(p) <==> EntryAt(ms, team, i, j, p)
    {
      PairsComplete(team, i, j);
      assert team[i] in Elements(team) && team[j] in Elements(team);
      EntryIsDirect(ms, users, asked, team[i], team[j]);
    }
    if pair :| pair in Pairs(team) && Penalized(h, asked, pair) == Some(p) {
      var i, j := PairsListed(team, pair);
      assert EntryAt(ms, team, i, j, p);
    }
  }

  /** Every pair of a report is the direct entry of two team-mates of the split, and with fewer than six pairs
      reported none is missing. */
  lemma ReportIsDirect(ms: seq<RecentMatch>, users: set<string>, teamA: seq<string>, teamB: seq<string>,
                       p: PenalizedPair)
    requires ms != [] && WellFormed(ms, users)
    requires Distinct(teamA) && Distinct(teamB) && Elements(teamA + teamB) <= users
    ensures var shown := BreakdownOf(Some(HistoryOf(ms, users)), teamA, teamB).penalizedPairs;
      && (p in shown ==> EntryOfTeam(ms, teamA, p) || EntryOfTeam(ms, teamB, p))
      && (|shown| < 6 && (EntryOfTeam(ms, teamA, p) || EntryOfTeam(ms, teamB, p)) ==> p in shown)
  {
    var h, asked := HistoryOf(ms, users), Elements(teamA + teamB);
    ElementsConcat(teamA, teamB);
    TeamEntries(ms, users, asked, teamA, p);
    TeamEntries(ms, users, asked, teamB, p);
    ShownMembers(AllPenalized(h, asked, Pairs(teamA)) + AllPenalized(h, asked, Pairs(teamB)), p);
  }

  lemma ShownMembers(all: seq<PenalizedPair>, p: PenalizedPair)
    ensures p in FirstSix(ByPenalty(all)) ==> p in all
    ensures |FirstSix(ByPenalty(all))| < 6 && p in all ==> p in FirstSix(ByPenalty(all))
  {
    SortFalls(all);
  }

  /** Without recent matches nothing is penalized. */
  lemma NoHistoryNoPenalty(teamA: seq<string>, teamB: seq<string>, pairs: map<string, PairSummary>)
    ensures BreakdownOf(None, teamA, teamB) == BreakdownOf(Some(History(0, pairs)), teamA, teamB)
         == PenaltyBreakdown(0.0, 0, [])
    ensures RepeatPenalty(None, teamA, teamB) == RepeatPenalty(Some(History(0, pairs)), teamA, teamB) == 0.0
  {
  }

  // ---- equal penalties ----

  /** The pairs of one penalty, in list order. */
  ghost function OfPenalty(ps: seq<PenalizedPair>, x: real): seq<PenalizedPair> {
    if ps == [] then []
    else if ps[0].penalty == x then [ps[0]] + OfPenalty(ps[1..], x)
    else OfPenalty(ps[1..], x)
  }

  lemma OfPenaltyFirst(p: PenalizedPair, rest: seq<PenalizedPair>, x: real)
    ensures OfPenalty([p] + rest, x) == if p.penalty == x then [p] + OfPenalty(rest, x) else OfPenalty(rest, x)
  {
    assert ([p] + rest)[1..] == rest;
  }

  lemma {:induction false} InsertIsStable(p: PenalizedPair, ps: seq<PenalizedPair>, x: real)
    ensures OfPenalty(InsertByPenalty(p, ps), x) == OfPenalty([p] + ps, x)
  {
    if ps != [] && ps[0].penalty > p.penalty {
      InsertIsStable(p, ps[1..], x);
      assert ps == [ps[0]] + ps[1..];
      OfPenaltyFirst(p, ps, x);
      OfPenaltyFirst(p, ps[1..], x);
      OfPenaltyFirst(ps[0], ps[1..], x);
      OfPenaltyFirst(ps[0], InsertByPenalty(p, ps[1..]), x);
    }
  }

  /** Pairs of equal penalty stay in the order of the teams: sorting is stable. */
  lemma {:induction false} SortIsStable(ps: seq<PenalizedPair>, x: real)
    ensures OfPenalty(ByPenalty(ps), x) == OfPenalty(ps, x)
  {
    if ps == [] {
    } else {
      SortIsStable(ps[1..], x);
      InsertIsStable(ps[0], ByPenalty(ps[1..]), x);
      OfPenaltyFirst(ps[0], ByPenalty(ps[1..]), x);
      OfPenaltyFirst(ps[0], ps[1..], x);
      assert ps == [ps[0]] + ps[1..];
    }
  }
}
