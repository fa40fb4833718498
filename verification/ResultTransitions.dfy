/** What resolving a dispute and reopening a match leave behind. */
module ResultTransitions {
  import opened ConfirmationPolicy
  import opened Domain
  import opened Prelude
  import opened ResultConvergence
  import opened ResultInput
  import opened ResultLifecycle

  /** What a resolution can change about the facts of a result. */
  ghost predicate SameFacts(a: Result, b: Result) {
    a.winningTeam == b.winningTeam && a.mvpUserId == b.mvpUserId && a.balanceRating == b.balanceRating
  }

  /** A resolution that goes through confirms result, stats and match at once. It sets the winner, replaces MVP and
      rating where given, and opens a new version exactly when one of the three really changes. */
  lemma ResolutionConfirms(s: MatchState, resultId: nat, d: Resolution, now: int)
    requires AdminResolve(s, resultId, d, now).1 == Done
    ensures var t := AdminResolve(s, resultId, d, now).0;
      && s.result.Some? && t.result.Some? && t.players == s.players && t.votes == s.votes
      && var before, after := s.result.value, t.result.value;
      && after.status == ResultStatus.CONFIRMED && after.confirmedAt == Some(now) && t.status == MatchStatus.CONFIRMED
      && t.stats.Keys == s.stats.Keys
      && (forall u :: u in t.stats ==>
            t.stats[u] == Stat(s.stats[u].teamSide, s.stats[u].role, ResultStatus.CONFIRMED))
      && after.id == before.id && after.idempotencyKey == before.idempotencyKey
      && after.winningTeam == Some(d.winningTeam)
      && (d.mvpUserId.None? ==> after.mvpUserId == before.mvpUserId)
      && (d.mvpUserId.Some? ==> after.mvpUserId == d.mvpUserId.value)
      && (d.balanceFeeling.None? ==> after.balanceRating == before.balanceRating)
      && (d.balanceFeeling.Some? ==> after.balanceRating == d.balanceFeeling.value)
      && after.version == (if SameFacts(before, after) then before.version else before.version + 1)
  {
  }

  /** A resolution goes through exactly for a rating of 1 to 5 or none, an MVP of the roster or none, and the disputed
      result of the match. */
  lemma ResolutionAnswers(s: MatchState, resultId: nat, d: Resolution, now: int)
    ensures var (t, answer) := AdminResolve(s, resultId, d, now);
      var rated := d.balanceFeeling.None? || 1 <= d.balanceFeeling.value <= 5;
      var known := d.mvpUserId.None? || d.mvpUserId.value == "" || d.mvpUserId.value in Ids(s.players);
      var named := s.result.Some? && s.result.value.id == resultId;
      && (answer == InvalidRequest <==> !rated || !known)
      && (answer == NotFound <==> rated && known && !named)
      && (answer == InvalidState <==> rated && known && named && s.result.value.status != ResultStatus.DISPUTED)
      && (answer == Done <==> rated && known && named && s.result.value.status == ResultStatus.DISPUTED)
      && (answer != Done ==> t == s)
  {
  }

  /** The next evaluation forgets the resolution: a changed result falls back to PARTIAL, as its new version has
      no votes, and an unchanged one to the policy's verdict on the votes that were disputed. */
  lemma ResolutionIsReevaluated(s: MatchState, resultId: nat, d: Resolution, now: int, later: int)
    requires Consistent(s) && AdminResolve(s, resultId, d, now).1 == Done
    ensures var t := AdminResolve(s, resultId, d, now).0;
      var u := Finalize(t, later).0;
      && t.result.Some? && u.result.Some?
      && u.result.value.status ==
           (if SameFacts(s.result.value, t.result.value) then PolicyVerdict(s, s.result.value)
            else ResultStatus.PARTIAL)
      && (u.result.value.status == ResultStatus.CONFIRMED <==>
            SameFacts(s.result.value, t.result.value) && PolicyVerdict(s, s.result.value) == ResultStatus.CONFIRMED)
  {
    var t := AdminResolve(s, resultId, d, now).0;
    if !SameFacts(s.result.value, t.result.value) {
      NoVotesAbove(s.votes, t.result.value.version);
      UnvotedIsPartial(Question(CountJoined(t.players), Captains(t.players), t.result.value.winningTeam));
    }
  }

  /** So no resolution of a settled dispute survives the next follow-up job. */
  lemma ResolutionNeverSurvives(s: MatchState, resultId: nat, d: Resolution, now: int, later: int)
    requires Consistent(s) && Settled(s) && AdminResolve(s, resultId, d, now).1 == Done
    ensures var u := Finalize(AdminResolve(s, resultId, d, now).0, later).0;
      u.result.Some? && u.result.value.status != ResultStatus.CONFIRMED && u.status != MatchStatus.CONFIRMED
  {
    ResolutionIsReevaluated(s, resultId, d, now, later);
  }

  /** Hence, while a resolution stands, no submission replaces it: it is refused, or a replay that changes
      nothing. */
  lemma ResolvedRefusesSubmissions(s: MatchState, resultId: nat, d: Resolution, now: int,
                                   q: QuickResult, key: Option<string>, freshId: nat)
    requires AdminResolve(s, resultId, d, now).1 == Done
    ensures var t := AdminResolve(s, resultId, d, now).0;
      Submit(t, q, key, freshId).0 == t && (Submit(t, q, key, freshId).1 == Done ==> SameRequest(t.result, key))
  {
  }

  lemma {:induction false} UnseatedCaptains(players: seq<Participant>)
    ensures Captains(Unseated(players)) == Captains(players)
  {
    if players == [] {
    } else {
      UnseatedCaptains(players[1..]);
      assert Unseated(players)[1..] == Unseated(players[1..]);
    }
  }

  lemma {:induction false} UnseatedJoined(players: seq<Participant>)
    ensures CountJoined(Unseated(players)) == |players|
  {
    if players == [] {
    } else {
      UnseatedJoined(players[1..]);
      assert Unseated(players)[1..] == Unseated(players[1..]);
    }
  }

  /** Reopening starts over with the same people: result, votes and stats are gone, everyone has accepted, nobody
      is seated, and until seats are filled no submission is accepted and no second reopening goes through. */
  lemma ReopenStartsOver(s: MatchState, q: QuickResult, key: Option<string>, freshId: nat)
    requires Consistent(s) && Reopen(s).1 == Done
    ensures var t := Reopen(s).0;
      && t.status == RECRUITING && t.result == None && t.stats == map[] && t.votes == []
      && Ids(t.players) == Ids(s.players) && Captains(t.players) == Captains(s.players)
      && CountJoined(t.players) == |t.players| && Assigned(t.players) == []
      && (forall p :: p in t.players ==> p.participation == ACCEPTED && p.teamSide.None? && p.assignedRole.None?)
      && Submit(t, q, key, freshId).0 == t && Submit(t, q, key, freshId).1 != Done
      && Reopen(t) == (t, InvalidState)
  {
    var t := Reopen(s).0;
    assert Ids(t.players) == Ids(s.players);
    UnseatedCaptains(s.players);
    UnseatedJoined(s.players);
    NobodyAssigned(t.players);
    UnseatedFillsNothing(s.players);
    AcceptedExactly(t.players, q.inputIds, q.mvpUserId);
  }

  lemma UnseatedFillsNothing(players: seq<Participant>)
    ensures !SlotBijection(Unseated(players))
  {
    if |players| == 10 {
      assert Unseated(players)[0].teamSide.None?;
    }
  }

  lemma {:induction false} NobodyAssigned(players: seq<Participant>)
    requires forall i :: 0 <= i < |players| ==> players[i].teamSide.None?
    ensures Assigned(players) == []
  {
    if players == [] {
    } else {
      assert players[0].teamSide.None?;
      NobodyAssigned(players[1..]);
    }
  }
}
