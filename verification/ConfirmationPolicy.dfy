/** The verdict on a result from the votes of one result version. */
module ConfirmationPolicy {
  import opened Domain
  import opened Prelude

  datatype Vote = Vote(userId: string, action: ConfirmationAction, proposedWinningTeam: Option<TeamSide>,
                       createdAt: int)

  datatype Question = Question(participantCount: nat, captainUserIds: seq<string>, winningTeam: Option<TeamSide>)

  // ---- the code's computation ----

  function InsertNewestFirst(v: Vote, vs: seq<Vote>): (r: seq<Vote>) {
    if vs == [] || vs[0].createdAt <= v.createdAt then [v] + vs else [vs[0]] + InsertNewestFirst(v, vs[1..])
  }

  /** The stable sort by descending time. */
  function NewestFirst(vs: seq<Vote>): (r: seq<Vote>) {
    if vs == [] then [] else InsertNewestFirst(vs[0], NewestFirst(vs[1..]))
  }

  predicate HasUser(vs: seq<Vote>, userId: string) {
    exists v :: v in vs && v.userId == userId
  }

  /** The first vote of each user, in order: the values of the map that keeps a user's first entry. */
  function FirstPerUser(vs: seq<Vote>): (r: seq<Vote>) {
    if vs == [] then []
    else
      var n := |vs| - 1;
      var rest := FirstPerUser(vs[..n]);
      if HasUser(rest, vs[n].userId) then rest else rest + [vs[n]]
  }

  function Latest(votes: seq<Vote>): (r: seq<Vote>) {
    FirstPerUser(NewestFirst(votes))
  }

  predicate Confirms(v: Vote) {
    v.action == CONFIRM
  }

  predicate Contradicts(v: Vote, winningTeam: Option<TeamSide>) {
    v.proposedWinningTeam.Some? && winningTeam.Some? && v.proposedWinningTeam != winningTeam
  }

  function CountConfirming(vs: seq<Vote>): (r: nat) {
    if vs == [] then 0 else (if Confirms(vs[0]) then 1 else 0) + CountConfirming(vs[1..])
  }

  predicate CaptainsConfirmed(vs: seq<Vote>, captains: seq<string>) {
    |captains| >= 2 && forall c | c in captains :: exists v :: v in vs && v.userId == c && Confirms(v)
  }

  /** confirmCount / participantCount >= 0.7, in integers. */
  predicate SeventyPercent(confirmCount: nat, participantCount: nat) {
    participantCount > 0 && 10 * confirmCount >= 7 * participantCount
  }

  function Verdict(q: Question, latest: seq<Vote>): (r: ResultStatus) {
    var confirmCount := CountConfirming(latest);
    if |latest| - confirmCount >= 2 || exists v :: v in latest && Contradicts(v, q.winningTeam)
    then ResultStatus.DISPUTED
    else if CaptainsConfirmed(latest, q.captainUserIds) || SeventyPercent(confirmCount, q.participantCount)
    then ResultStatus.CONFIRMED
    else ResultStatus.PARTIAL
  }

  function Evaluation(q: Question, votes: seq<Vote>): (r: ResultStatus) {
    Verdict(q, Latest(votes))
  }

  /** The loop that keeps the first vote of each user of the sorted list. */
  method CollectLatest(votes: seq<Vote>) returns (latest: seq<Vote>)
    ensures latest == Latest(votes)
  {
    var sorted := NewestFirst(votes);
    latest := [];
    var i := 0;
    while i < |sorted|
      invariant i <= |sorted| && latest == FirstPerUser(sorted[..i])
    {
      assert sorted[..i + 1][..i] == sorted[..i];
      if !HasUser(latest, sorted[i].userId) {
        latest := latest + [sorted[i]];
      }
      i := i + 1;
    }
    assert sorted[..|sorted|] == sorted;
  }

  method Evaluate(q: Question, votes: seq<Vote>) returns (status: ResultStatus)
    ensures status == Evaluation(q, votes)
  {
    var latest := CollectLatest(votes);
    var confirmCount, conflicting := CountActions(latest);
    var winningTeamConflict := exists v :: v in latest && Contradicts(v, q.winningTeam);
    if conflicting >= 2 || winningTeamConflict {
      return ResultStatus.DISPUTED;
    }
    if CaptainsConfirmed(latest, q.captainUserIds) || SeventyPercent(confirmCount, q.participantCount) {
      return ResultStatus.CONFIRMED;
    }
    return ResultStatus.PARTIAL;
  }

  method CountActions(latest: seq<Vote>) returns (confirming: nat, conflicting: nat)
    ensures confirming == CountConfirming(latest) && confirming + conflicting == |latest|
  {
    confirming, conflicting := 0, 0;
    var i := 0;
    while i < |latest|
      invariant i <= |latest| && confirming + conflicting == i
      invariant confirming + CountConfirming(latest[i..]) == CountConfirming(latest)
    {
      assert latest[i..][1..] == latest[i + 1..];
      if Confirms(latest[i]) {
        confirming := confirming + 1;
      } else {
        conflicting := conflicting + 1;
      }
      i := i + 1;
    }
  }

  datatype DisputeSummary = DisputeSummary(
    participantCount: nat, confirmCount: nat, conflictingCount: nat, winningTeamConflict: bool)

  /** The dispute view, computed by its own loop over the votes as that view loads them. */
  method BuildDisputeSummary(winningTeam: Option<TeamSide>, participantCount: nat, votes: seq<Vote>)
    returns (s: DisputeSummary)
    ensures s == SummaryOf(winningTeam, participantCount, votes)
  {
    var latest := CollectLatest(votes);
    var confirming, conflicting := CountActions(latest);
    s := DisputeSummary(participantCount, confirming, conflicting,
                        exists v :: v in latest && Contradicts(v, winningTeam));
  }

  function SummaryOf(winningTeam: Option<TeamSide>, participantCount: nat, votes: seq<Vote>): (s: DisputeSummary)
    ensures s.confirmCount + s.conflictingCount == |Latest(votes)|
  {
    var latest := Latest(votes);
    CountBound(latest);
    DisputeSummary(participantCount, CountConfirming(latest), |latest| - CountConfirming(latest),
                   exists v :: v in latest && Contradicts(v, winningTeam))
  }

  lemma {:induction false} CountBound(vs: seq<Vote>)
    ensures CountConfirming(vs) <= |vs|
  {
    if vs == [] {
    } else {
      CountBound(vs[1..]);
    }
  }

  // ---- the meaning: one latest vote per user ----

  /** The votes no newer vote of the same user supersedes. */
  ghost function Standing(votes: set<Vote>): set<Vote> {
    set v | v in votes && forall w :: w in votes && w.userId == v.userId ==> w.createdAt <= v.createdAt
  }

  /** No user has two standing votes; so whenever the creation times of each user's votes differ. */
  ghost predicate OneStanding(votes: set<Vote>) {
    forall v, w :: v in Standing(votes) && w in Standing(votes) && v.userId == w.userId ==> v == w
  }

  ghost function Confirming(votes: set<Vote>): set<Vote> {
    set v | v in votes && Confirms(v)
  }

  /** Distinct creation times leave one standing vote per user. */
  lemma DistinctTimesStandAlone(votes: seq<Vote>)
    requires forall i, j :: 0 <= i < j < |votes| ==> votes[i].createdAt != votes[j].createdAt
    ensures OneStanding(Elements(votes))
  {
    forall v, w | v in Standing(Elements(votes)) && w in Standing(Elements(votes)) && v.userId == w.userId
      ensures v == w
    {
      assert v.createdAt == w.createdAt;
      var i :| 0 <= i < |votes| && votes[i] == v;
      var j :| 0 <= j < |votes| && votes[j] == w;
      assert i == j;
    }
  }

  ghost predicate ConfirmedBy(standing: set<Vote>, userId: string) {
    exists v :: v in standing && v.userId == userId && Confirms(v)
  }

  /** The verdict on a set of standing votes, without lists, sorting or counting loops. */
  ghost function VerdictOnSet(q: Question, standing: set<Vote>): ResultStatus {
    if |standing - Confirming(standing)| >= 2 || exists v :: v in standing && Contradicts(v, q.winningTeam)
    then ResultStatus.DISPUTED
    else if (|q.captainUserIds| >= 2
             && forall c :: c in q.captainUserIds ==> ConfirmedBy(standing, c))
            || SeventyPercent(|Confirming(standing)|, q.participantCount)
    then ResultStatus.CONFIRMED
    else ResultStatus.PARTIAL
  }

  ghost predicate Descending(vs: seq<Vote>) {
    forall i, j :: 0 <= i < j < |vs| ==> vs[i].createdAt >= vs[j].createdAt
  }

  lemma {:induction false} InsertDescends(v: Vote, vs: seq<Vote>)
    requires Descending(vs)
    ensures Descending(InsertNewestFirst(v, vs))
    ensures forall w :: w in InsertNewestFirst(v, vs) <==> w == v || w in vs
  {
    if vs != [] && vs[0].createdAt > v.createdAt {
      InsertDescends(v, vs[1..]);
      var rest := InsertNewestFirst(v, vs[1..]);
      forall j | 0 <= j < |rest| ensures vs[0].createdAt >= rest[j].createdAt {
        assert rest[j] in rest;
      }
    }
  }

  lemma {:induction false} NewestFirstDescends(vs: seq<Vote>)
    ensures Descending(NewestFirst(vs))
    ensures forall v :: v in NewestFirst(vs) <==> v in vs
  {
    if vs == [] {
    } else {
      NewestFirstDescends(vs[1..]);
      InsertDescends(vs[0], NewestFirst(vs[1..]));
    }
  }

  ghost predicate DistinctUserVotes(vs: seq<Vote>) {
    forall i, j :: 0 <= i < j < |vs| ==> vs[i].userId != vs[j].userId
  }

  lemma StandingAfterOlder(vs: seq<Vote>, last: Vote)
    requires Descending(vs + [last])
    ensures Standing(Elements(vs)) <= Standing(Elements(vs + [last]))
    ensures !HasUser(vs, last.userId) ==> last in Standing(Elements(vs + [last]))
  {
    var all := vs + [last];
    assert Elements(all) == Elements(vs) + {last};
    forall v | v in vs ensures v.createdAt >= last.createdAt {
      var i :| 0 <= i < |vs| && vs[i] == v;
      assert all[i] == v && all[|vs|] == last;
    }
  }

  /** kept holds one standing vote for each user who voted. */
  ghost predicate KeepsStanding(vs: seq<Vote>, kept: seq<Vote>) {
    && DistinctUserVotes(kept)
    && Elements(kept) <= Standing(Elements(vs))
    && (forall userId :: HasUser(vs, userId) <==> HasUser(kept, userId))
  }

  lemma KeepNext(vs: seq<Vote>, last: Vote, kept: seq<Vote>)
    requires Descending(vs + [last]) && KeepsStanding(vs, kept)
    ensures KeepsStanding(vs + [last], if HasUser(kept, last.userId) then kept else kept + [last])
  {
    StandingAfterOlder(vs, last);
    HasUserSnoc(vs, last);
    HasUserSnoc(kept, last);
    assert Elements(kept + [last]) == Elements(kept) + {last};
    if !HasUser(kept, last.userId) {
      forall i | 0 <= i < |kept| ensures kept[i].userId != last.userId {
        assert kept[i] in kept;
      }
    }
  }

  lemma {:induction false} FirstPerUserStands(vs: seq<Vote>)
    requires Descending(vs)
    ensures KeepsStanding(vs, FirstPerUser(vs))
  {
    if vs == [] {
    } else {
      var n := |vs| - 1;
      FirstPerUserStands(vs[..n]);
      assert vs == vs[..n] + [vs[n]];
      KeepNext(vs[..n], vs[n], FirstPerUser(vs[..n]));
    }
  }

  lemma HasUserSnoc(vs: seq<Vote>, last: Vote)
    ensures forall userId :: HasUser(vs + [last], userId) <==> HasUser(vs, userId) || userId == last.userId
  {
    forall userId ensures HasUser(vs + [last], userId) <==> HasUser(vs, userId) || userId == last.userId {
      assert last in vs + [last];
      if v :| v in vs && v.userId == userId {
        assert v in vs + [last];
      }
    }
  }

  /** The kept votes are exactly the standing ones. */
  lemma LatestIsStanding(votes: seq<Vote>)
    requires OneStanding(Elements(votes))
    ensures Elements(Latest(votes)) == Standing(Elements(votes)) && Distinct(Latest(votes))
  {
    var sorted := NewestFirst(votes);
    NewestFirstDescends(votes);
    assert Elements(sorted) == Elements(votes);
    FirstPerUserStands(sorted);
    forall v | v in Standing(Elements(votes)) ensures v in Latest(votes) {
      assert v in sorted && HasUser(sorted, v.userId);
      assert HasUser(Latest(votes), v.userId);
      var w :| w in Latest(votes) && w.userId == v.userId;
      assert w in Elements(Latest(votes));
    }
    forall i, j | 0 <= i < j < |Latest(votes)| ensures Latest(votes)[i] != Latest(votes)[j] {
      assert Latest(votes)[i].userId != Latest(votes)[j].userId;
    }
  }

  lemma ConfirmingWithOneMore(v: Vote, rest: set<Vote>)
    requires v !in rest
    ensures |Confirming({v} + rest)| == |Confirming(rest)| + if Confirms(v) then 1 else 0
  {
    if Confirms(v) {
      assert Confirming({v} + rest) == {v} + Confirming(rest);
    } else {
      assert Confirming({v} + rest) == Confirming(rest);
    }
  }

  lemma {:induction false} CountIsSize(vs: seq<Vote>)
    requires Distinct(vs)
    ensures CountConfirming(vs) == |Confirming(Elements(vs))|
  {
    if vs == [] {
      assert Confirming(Elements(vs)) == {};
    } else {
      CountIsSize(vs[1..]);
      assert Elements(vs) == {vs[0]} + Elements(vs[1..]);
      assert vs[0] !in Elements(vs[1..]);
      ConfirmingWithOneMore(vs[0], Elements(vs[1..]));
    }
  }

  lemma CountsOnSet(latest: seq<Vote>, standing: set<Vote>)
    requires Elements(latest) == standing && Distinct(latest)
    ensures CountConfirming(latest) == |Confirming(standing)|
    ensures |latest| - CountConfirming(latest) == |standing - Confirming(standing)|
    ensures forall v :: v in latest <==> v in standing
  {
    CountIsSize(latest);
    DistinctSize(latest);
    PartSize(standing);
    assert forall v :: v in latest <==> v in Elements(latest);
  }

  lemma VerdictOnList(q: Question, latest: seq<Vote>, standing: set<Vote>)
    requires Elements(latest) == standing && Distinct(latest)
    ensures Verdict(q, latest) == VerdictOnSet(q, standing)
  {
    CountsOnSet(latest, standing);
    assert forall c :: (exists v :: v in latest && v.userId == c && Confirms(v)) <==> ConfirmedBy(standing, c);
  }

  /** The policy is "latest vote per user": its verdict is the one on the set of standing votes, so the
      order of the input and every superseded vote are irrelevant. */
  lemma EvaluationIsVerdictOnStanding(q: Question, votes: seq<Vote>)
    requires OneStanding(Elements(votes))
    ensures Evaluation(q, votes) == VerdictOnSet(q, Standing(Elements(votes)))
  {
    LatestIsStanding(votes);
    VerdictOnList(q, Latest(votes), Standing(Elements(votes)));
  }

  /** And so are the counts of the dispute view. */
  lemma SummaryIsOfStanding(q: Question, votes: seq<Vote>)
    requires OneStanding(Elements(votes))
    ensures var s := SummaryOf(q.winningTeam, q.participantCount, votes);
      && s.confirmCount == |Confirming(Standing(Elements(votes)))|
      && s.conflictingCount == |Standing(Elements(votes)) - Confirming(Standing(Elements(votes)))|
      && (s.winningTeamConflict <==>
            exists v :: v in Standing(Elements(votes)) && v.proposedWinningTeam.Some? && q.winningTeam.Some?
                        && v.proposedWinningTeam.value != q.winningTeam.value)
  {
    LatestIsStanding(votes);
    CountsOnSet(Latest(votes), Standing(Elements(votes)));
  }

  lemma PartSize(standing: set<Vote>)
    ensures |standing - Confirming(standing)| == |standing| - |Confirming(standing)|
  {
    assert standing == Confirming(standing) + (standing - Confirming(standing));
  }

  /** Dropping a superseded vote changes neither verdict nor standing votes. */
  lemma SupersededIsIrrelevant(q: Question, votes: seq<Vote>, fewer: seq<Vote>, stale: Vote)
    requires OneStanding(Elements(votes)) && Elements(fewer) == Elements(votes) - {stale}
    requires exists w :: w in votes && w.userId == stale.userId && w.createdAt > stale.createdAt
    ensures Evaluation(q, fewer) == Evaluation(q, votes)
  {
    var w :| w in votes && w.userId == stale.userId && w.createdAt > stale.createdAt;
    forall v ensures v in Standing(Elements(fewer)) <==> v in Standing(Elements(votes)) {
      assert w in Elements(fewer);
    }
    assert Standing(Elements(fewer)) == Standing(Elements(votes));
    EvaluationIsVerdictOnStanding(q, votes);
    EvaluationIsVerdictOnStanding(q, fewer);
  }

  /** The policy disputes a result exactly when the dispute view, loading the same votes in any order,
      shows two conflicts or a winner conflict. */
  lemma DisputedExactlyAsShown(q: Question, votes: seq<Vote>, shown: seq<Vote>)
    requires OneStanding(Elements(votes)) && Elements(shown) == Elements(votes)
    ensures var s := SummaryOf(q.winningTeam, q.participantCount, shown);
      Evaluation(q, votes) == ResultStatus.DISPUTED <==> s.conflictingCount >= 2 || s.winningTeamConflict
  {
    EvaluationIsVerdictOnStanding(q, votes);
    SummaryIsOfStanding(q, shown);
  }

  function Rank(s: ResultStatus): (r: nat) {
    match s
    case DISPUTED => 0
    case PARTIAL => 1
    case CONFIRMED => 2
  }

  /** A user's newer plain confirmation never lowers the verdict. */
  lemma PlainConfirmNeverLowers(q: Question, votes: seq<Vote>, v: Vote)
    requires OneStanding(Elements(votes)) && Confirms(v) && v.proposedWinningTeam.None?
    requires forall w :: w in votes && w.userId == v.userId ==> w.createdAt < v.createdAt
    ensures OneStanding(Elements(votes + [v]))
    ensures Rank(Evaluation(q, votes)) <= Rank(Evaluation(q, votes + [v]))
  {
    NewerStandsAlone(votes, v);
    assert Evaluation(q, votes) == VerdictOnSet(q, Standing(Elements(votes))) by {
      EvaluationIsVerdictOnStanding(q, votes);
    }
    assert Evaluation(q, votes + [v]) == VerdictOnSet(q, Standing(Elements(votes + [v]))) by {
      EvaluationIsVerdictOnStanding(q, votes + [v]);
    }
    NewStanding(votes, v);
    assert v !in Standing(Elements(votes));
    ReplacingRaises(q, Standing(Elements(votes)), Standing(Elements(votes + [v])), v);
  }

  lemma NewerStandsAlone(votes: seq<Vote>, v: Vote)
    requires OneStanding(Elements(votes))
    requires forall w :: w in votes && w.userId == v.userId ==> w.createdAt < v.createdAt
    ensures OneStanding(Elements(votes + [v]))
  {
    NewStanding(votes, v);
  }

  lemma ReplacingRaises(q: Question, before: set<Vote>, after: set<Vote>, v: Vote)
    requires after == (set w | w in before && w.userId != v.userId) + {v} && v !in before
    requires Confirms(v) && v.proposedWinningTeam.None?
    requires forall x, y :: x in before && y in before && x.userId == y.userId ==> x == y
    ensures Rank(VerdictOnSet(q, before)) <= Rank(VerdictOnSet(q, after))
  {
    assert after - Confirming(after) <= before - Confirming(before);
    SubsetSize(after - Confirming(after), before - Confirming(before));
    ConfirmingGrows(before, after, v);
    ConfirmedByGrows(before, after, v);
    ContradictionsShrink(q, before, after, v);
    VerdictRises(q, before, after);
  }

  lemma VerdictRises(q: Question, before: set<Vote>, after: set<Vote>)
    requires |after - Confirming(after)| <= |before - Confirming(before)| && |Confirming(before)| <= |Confirming(after)|
    requires forall c :: ConfirmedBy(before, c) ==> ConfirmedBy(after, c)
    requires (exists w :: w in after && Contradicts(w, q.winningTeam)) ==>
      exists w :: w in before && Contradicts(w, q.winningTeam)
    ensures Rank(VerdictOnSet(q, before)) <= Rank(VerdictOnSet(q, after))
  {
  }

  lemma ContradictionsShrink(q: Question, before: set<Vote>, after: set<Vote>, v: Vote)
    requires after == (set w | w in before && w.userId != v.userId) + {v} && v.proposedWinningTeam.None?
    ensures (exists w :: w in after && Contradicts(w, q.winningTeam)) ==>
      exists w :: w in before && Contradicts(w, q.winningTeam)
  {
  }

  lemma ConfirmedByGrows(before: set<Vote>, after: set<Vote>, v: Vote)
    requires after == (set w | w in before && w.userId != v.userId) + {v} && Confirms(v)
    ensures forall c :: ConfirmedBy(before, c) ==> ConfirmedBy(after, c)
  {
    forall c | ConfirmedBy(before, c) ensures ConfirmedBy(after, c) {
      assert v in after;
      var w :| w in before && w.userId == c && Confirms(w);
      assert w.userId != v.userId ==> w in after;
    }
  }

  lemma NewStanding(votes: seq<Vote>, v: Vote)
    requires forall w :: w in votes && w.userId == v.userId ==> w.createdAt < v.createdAt
    ensures Standing(Elements(votes + [v])) == (set w | w in Standing(Elements(votes)) && w.userId != v.userId) + {v}
  {
    var all := Elements(votes + [v]);
    assert all == Elements(votes) + {v};
  }

  lemma ConfirmingGrows(before: set<Vote>, after: set<Vote>, v: Vote)
    requires after == (set w | w in before && w.userId != v.userId) + {v} && Confirms(v) && v !in before
    requires forall x, y :: x in before && y in before && x.userId == y.userId ==> x == y
    ensures |Confirming(before)| <= |Confirming(after)|
  {
    var kept := set w | w in Confirming(before) && w.userId != v.userId;
    var dropped := Confirming(before) - kept;
    assert Confirming(after) == kept + {v};
    assert Confirming(before) == kept + dropped;
    if x :| x in dropped {
      assert dropped == {x};
    }
  }

  // ---- when the order of the input matters ----

  lemma {:induction false} InsertedBeforeOlder(v: Vote, vs: seq<Vote>) returns (k: nat)
    ensures k < |InsertNewestFirst(v, vs)| && InsertNewestFirst(v, vs)[k] == v
    ensures forall i :: 0 <= i < k ==> InsertNewestFirst(v, vs)[i].createdAt > v.createdAt
  {
    if vs == [] || vs[0].createdAt <= v.createdAt {
      k := 0;
    } else {
      var j := InsertedBeforeOlder(v, vs[1..]);
      k := j + 1;
    }
  }

  lemma {:induction false} FirstPerUserMembers(vs: seq<Vote>)
    ensures forall v :: v in FirstPerUser(vs) ==> v in vs
  {
    if vs == [] {
    } else {
      FirstPerUserMembers(vs[..|vs| - 1]);
    }
  }

  lemma {:induction false} FirstOfUserIsKept(vs: seq<Vote>, k: nat)
    requires k < |vs| && forall i :: 0 <= i < k ==> vs[i].userId != vs[k].userId
    ensures vs[k] in FirstPerUser(vs)
    decreases |vs|
  {
    var n := |vs| - 1;
    if k == n {
      FirstPerUserMembers(vs[..n]);
      forall v | v in FirstPerUser(vs[..n]) ensures v.userId != vs[n].userId {
        var i :| 0 <= i < n && vs[i] == v;
      }
    } else {
      assert vs[..n][k] == vs[k];
      FirstOfUserIsKept(vs[..n], k);
    }
  }

  /** Loaded first, a standing vote is the one the policy keeps. */
  lemma LoadedFirstIsKept(votes: seq<Vote>, v: Vote)
    requires v in Standing(Elements(votes))
    ensures v in Latest([v] + votes)
  {
    assert ([v] + votes)[1..] == votes;
    var sorted := NewestFirst(votes);
    NewestFirstDescends(votes);
    InsertDescends(v, sorted);
    var all := InsertNewestFirst(v, sorted);
    var k := InsertedBeforeOlder(v, sorted);
    forall i | 0 <= i < k ensures all[i].userId != v.userId {
      assert all[i] in all;
      assert all[i] in Elements(votes);
    }
    FirstOfUserIsKept(all, k);
  }

  lemma OneKeptPerUser(votes: seq<Vote>, v: Vote, w: Vote)
    requires v in Latest(votes) && w in Latest(votes) && v.userId == w.userId
    ensures v == w
  {
    NewestFirstDescends(votes);
    FirstPerUserStands(NewestFirst(votes));
    var i :| 0 <= i < |Latest(votes)| && Latest(votes)[i] == v;
    var j :| 0 <= j < |Latest(votes)| && Latest(votes)[j] == w;
  }

  /** The votes the policy keeps do not depend on how the list was loaded. */
  ghost predicate OrderIndependent(votes: seq<Vote>) {
    forall other :: Elements(other) == Elements(votes) ==> Elements(Latest(other)) == Elements(Latest(votes))
  }

  /** Which votes count is independent of the load order exactly when no user has two standing votes. */
  lemma OrderIndependentExactly(votes: seq<Vote>)
    ensures OrderIndependent(votes) <==> OneStanding(Elements(votes))
  {
    if OneStanding(Elements(votes)) {
      forall other: seq<Vote> | Elements(other) == Elements(votes)
        ensures Elements(Latest(other)) == Elements(Latest(votes))
      {
        LatestIsStanding(other);
        LatestIsStanding(votes);
      }
    }
    if OrderIndependent(votes) {
      forall v, w | v in Standing(Elements(votes)) && w in Standing(Elements(votes)) && v.userId == w.userId
        ensures v == w
      {
        KeptInAnyOrder(votes, v);
        KeptInAnyOrder(votes, w);
        OneKeptPerUser(votes, v, w);
      }
    }
  }

  lemma KeptInAnyOrder(votes: seq<Vote>, v: Vote)
    requires OrderIndependent(votes) && v in Standing(Elements(votes))
    ensures v in Latest(votes)
  {
    LoadedFirstIsKept(votes, v);
    assert Elements([v] + votes) == Elements(votes);
    assert v in Elements(Latest([v] + votes));
    assert v in Elements(Latest(votes));
  }

  function Other(side: TeamSide): (r: TeamSide) {
    if side == A then B else A
  }

  /** A confirmation and a dispute naming the other winner, by one user at one instant: for every submitted result
      the verdict is DISPUTED in one load order and not in the other. */
  lemma TiesDependOnOrder(q: Question, winner: TeamSide, userId: string, now: int)
    requires q.winningTeam == Some(winner)
    ensures var v, w := Vote(userId, CONFIRM, None, now), Vote(userId, DISPUTE, Some(Other(winner)), now);
      Evaluation(q, [v, w]) != ResultStatus.DISPUTED && Evaluation(q, [w, v]) == ResultStatus.DISPUTED
  {
    var v, w := Vote(userId, CONFIRM, None, now), Vote(userId, DISPUTE, Some(Other(winner)), now);
    FirstOfTie(v, w);
    FirstOfTie(w, v);
    CountOfOne(v);
    assert w in [w] && Contradicts(w, q.winningTeam);
  }

  lemma CountOfOne(v: Vote)
    ensures CountConfirming([v]) == if Confirms(v) then 1 else 0
  {
    assert [v][1..] == [];
    assert CountConfirming([]) == 0;
  }

  lemma FirstOfTie(v: Vote, w: Vote)
    requires v.userId == w.userId && v.createdAt == w.createdAt
    ensures Latest([v, w]) == [v]
  {
    assert [v, w][1..] == [w] && [w][1..] == [];
    assert NewestFirst([w]) == [w];
    assert NewestFirst([v, w]) == [v, w];
    assert [v, w][..1] == [v] && [v][..0] == [];
    assert FirstPerUser([v]) == [v];
  }

  // ---- the policy in plain terms ----

  /** Two standing votes other than a confirmation, or one that names another winner than the result. */
  ghost predicate Objected(q: Question, standing: set<Vote>) {
    || |set v | v in standing && v.action != CONFIRM| >= 2
    || exists v :: v in standing && v.proposedWinningTeam.Some? && q.winningTeam.Some?
                   && v.proposedWinningTeam.value != q.winningTeam.value
  }

  /** At least two captains, every one of whom has a standing confirmation. */
  ghost predicate CaptainsAgree(q: Question, standing: set<Vote>) {
    && |q.captainUserIds| >= 2
    && forall c :: c in q.captainUserIds ==> exists v :: v in standing && v.userId == c && v.action == CONFIRM
  }

  /** Seven in ten of the participants have a standing confirmation. */
  ghost predicate MostAgree(q: Question, standing: set<Vote>) {
    q.participantCount > 0 && 10 * |set v | v in standing && v.action == CONFIRM| >= 7 * q.participantCount
  }

  /** With one standing vote per user a result is disputed exactly when two of the standing votes reject it or one
      contradicts its winner; otherwise it is confirmed exactly when the captains or seven in ten confirm it. */
  lemma PolicyInWords(q: Question, votes: seq<Vote>)
    requires OneStanding(Elements(votes))
    ensures var standing := Standing(Elements(votes));
      && (Evaluation(q, votes) == ResultStatus.DISPUTED <==> Objected(q, standing))
      && (Evaluation(q, votes) == ResultStatus.CONFIRMED <==>
            !Objected(q, standing) && (CaptainsAgree(q, standing) || MostAgree(q, standing)))
  {
    EvaluationIsVerdictOnStanding(q, votes);
    SetVerdictInWords(q, Standing(Elements(votes)));
  }

  lemma SetVerdictInWords(q: Question, standing: set<Vote>)
    ensures VerdictOnSet(q, standing) == ResultStatus.DISPUTED <==> Objected(q, standing)
    ensures VerdictOnSet(q, standing) == ResultStatus.CONFIRMED <==>
      !Objected(q, standing) && (CaptainsAgree(q, standing) || MostAgree(q, standing))
  {
    assert standing - Confirming(standing) == set v | v in standing && v.action != CONFIRM;
    assert Confirming(standing) == set v | v in standing && v.action == CONFIRM;
    assert (exists v :: v in standing && Contradicts(v, q.winningTeam)) <==>
      exists v :: v in standing && v.proposedWinningTeam.Some? && q.winningTeam.Some?
                  && v.proposedWinningTeam.value != q.winningTeam.value;
    forall c ensures ConfirmedBy(standing, c) <==> exists v :: v in standing && v.userId == c && v.action == CONFIRM {
    }
  }
}
