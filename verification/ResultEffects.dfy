/** Exactly what each call of a match answers and writes. */
module ResultEffects {
  import opened ConfirmationPolicy
  import opened Domain
  import opened Prelude
  import opened ResultInput
  import opened ResultLifecycle

  // ---- submitting ----

  /** The request repeats the key of the stored result; an empty key repeats nothing. */
  ghost predicate Repeats(s: MatchState, key: Option<string>) {
    s.result.Some? && key.Some? && key.value != "" && s.result.value.idempotencyKey == key
  }

  /** Every submission gets exactly one of these answers, and only an accepted one writes. */
  lemma SubmissionAnswers(s: MatchState, q: QuickResult, key: Option<string>, freshId: nat)
    ensures var (t, answer) := Submit(s, q, key, freshId);
      var rated := 1 <= q.balanceFeeling <= 5;
      var confirmed := s.result.Some? && s.result.value.status == ResultStatus.CONFIRMED;
      var error := CheckInput(s.players, q.inputIds, q.mvpUserId);
      && (answer == InvalidRequest <==> !rated)
      && (answer == AlreadyFinalized <==> rated && !Repeats(s, key) && confirmed)
      && (answer.Rejected? <==> rated && !Repeats(s, key) && !confirmed && error.Some?)
      && (answer.Rejected? ==> error == Some(answer.error))
      && (answer == Done <==> rated && (Repeats(s, key) || (!confirmed && error.None?)))
      && (answer != Done || Repeats(s, key) ==> t == s)
  {
  }

  lemma {:induction false} FindUnique(players: seq<Participant>, i: nat)
    requires Distinct(Ids(players)) && i < |players|
    ensures FindParticipant(players, players[i].userId) == Some(players[i])
  {
    assert Ids(players)[i] == players[i].userId;
    if i > 0 {
      assert Ids(players)[0] != Ids(players)[i];
      assert Ids(players)[1..] == Ids(players[1..]);
      FindUnique(players[1..], i - 1);
    }
  }

  lemma {:induction false} StatOfUser(stats: map<string, Stat>, players: seq<Participant>, ids: seq<string>, i: nat)
    requires Distinct(Ids(players)) && i < |players| && players[i].teamSide.Some? && players[i].assignedRole.Some?
    requires players[i].userId in ids
      || (players[i].userId in stats
          && stats[players[i].userId] == Stat(players[i].teamSide.value, players[i].assignedRole.value, PARTIAL))
    ensures var t := WithStats(stats, players, ids);
      && players[i].userId in t
      && t[players[i].userId] == Stat(players[i].teamSide.value, players[i].assignedRole.value, PARTIAL)
    decreases ids
  {
    if ids == [] {
    } else {
      FindUnique(players, i);
      StatOfUser(WithStat(stats, players, ids[0]), players, ids[1..], i);
    }
  }

  /** An accepted submission that is no replay stores the request's winner, MVP and rating as a PARTIAL result, new
      at version 1 or as the next version of the stored one, and for every participant a PARTIAL stat on exactly
      their side and lane of the roster; nobody else has a stat, and roster and votes stay as they are. */
  lemma SubmissionWrites(s: MatchState, q: QuickResult, key: Option<string>, freshId: nat)
    requires Consistent(s) && Submit(s, q, key, freshId).1 == Done && !Repeats(s, key)
    ensures var t := Submit(s, q, key, freshId).0;
      && t.status == MatchStatus.RESULT_PENDING && t.players == s.players && t.votes == s.votes
      && t.result.Some? && ResultWritten(s.result, t.result.value, q, key, freshId)
      && (forall i: nat :: i < |s.players| ==> StatWritten(s.players[i], t.stats))
      && (forall u :: u in t.stats <==> u in Ids(s.players))
  {
    AcceptedExactly(s.players, q.inputIds, q.mvpUserId);
    PermutationFacts(q.inputIds, Ids(s.players));
    AllStatsWritten(s.stats, s.players, q.inputIds);
    SubmitKeeps(s, q, key, freshId);
  }

  /** Writing a stat for every id of a placed roster. */
  lemma AllStatsWritten(stats: map<string, Stat>, players: seq<Participant>, ids: seq<string>)
    requires Distinct(Ids(players)) && SlotBijection(players) && Elements(ids) == Elements(Ids(players))
    ensures forall i: nat :: i < |players| ==> StatWritten(players[i], WithStats(stats, players, ids))
    ensures forall u :: u in Ids(players) ==> u in WithStats(stats, players, ids)
  {
    forall i: nat | i < |players| ensures StatWritten(players[i], WithStats(stats, players, ids)) {
      assert Ids(players)[i] in Elements(ids);
      StatOfUser(stats, players, ids, i);
    }
    forall u | u in Ids(players) ensures u in WithStats(stats, players, ids) {
      var i: nat :| i < |players| && Ids(players)[i] == u;
      assert StatWritten(players[i], WithStats(stats, players, ids));
    }
  }

  ghost predicate StatWritten(p: Participant, stats: map<string, Stat>) {
    && p.teamSide.Some? && p.assignedRole.Some? && p.userId in stats
    && stats[p.userId].teamSide == p.teamSide.value
    && stats[p.userId].role == p.assignedRole.value
    && stats[p.userId].status == ResultStatus.PARTIAL
  }

  /** The stored result after a submission; a request without a key leaves the stored key. */
  ghost predicate ResultWritten(before: Option<Result>, r: Result, q: QuickResult, key: Option<string>, freshId: nat) {
    && r.winningTeam == Some(q.winningTeam) && r.mvpUserId == q.mvpUserId && r.balanceRating == q.balanceFeeling
    && r.status == ResultStatus.PARTIAL
    && match before
       case None => r.id == freshId && r.version == 1 && r.confirmedAt == None && r.idempotencyKey == key
       case Some(e) =>
         && r.id == e.id && r.version == e.version + 1 && r.confirmedAt == e.confirmedAt
         && (key.None? ==> r.idempotencyKey == e.idempotencyKey) && (key.Some? ==> r.idempotencyKey == key)
  }

  // ---- what the policy is asked ----

  /** The positions of the participants who accepted or are locked in. */
  ghost function JoinedAt(players: seq<Participant>): set<nat> {
    Where(|players|, (i: nat) => i < |players| && players[i].participation in {ACCEPTED, LOCKED_IN})
  }

  ghost function CaptainsAt(players: seq<Participant>): set<nat> {
    Where(|players|, (i: nat) => i < |players| && players[i].isCaptain)
  }

  lemma OneMorePlayer(players: seq<Participant>, p: Participant)
    ensures |JoinedAt(players + [p])| == |JoinedAt(players)| + if p.participation in {ACCEPTED, LOCKED_IN} then 1 else 0
    ensures |CaptainsAt(players + [p])| == |CaptainsAt(players)| + if p.isCaptain then 1 else 0
  {
    var n, all := |players|, players + [p];
    var joined := (i: nat) => i < |all| && all[i].participation in {ACCEPTED, LOCKED_IN};
    var leads := (i: nat) => i < |all| && all[i].isCaptain;
    WhereGrows(n, joined);
    WhereGrows(n, leads);
    assert Where(n, joined) == JoinedAt(players);
    assert Where(n, leads) == CaptainsAt(players);
  }

  lemma {:induction false} CountsAppend(players: seq<Participant>, p: Participant)
    ensures CountJoined(players + [p])
         == CountJoined(players) + if p.participation in {ACCEPTED, LOCKED_IN} then 1 else 0
    ensures Captains(players + [p]) == Captains(players) + if p.isCaptain then [p.userId] else []
  {
    if players == [] {
      assert ([] + [p])[1..] == [];
    } else {
      assert (players + [p])[1..] == players[1..] + [p];
      CountsAppend(players[1..], p);
    }
  }

  /** The policy is asked about the participants who accepted or are locked in, and about every captain once. */
  lemma {:induction false} RosterCounts(players: seq<Participant>)
    ensures CountJoined(players) == |JoinedAt(players)|
    ensures |Captains(players)| == |CaptainsAt(players)|
    ensures forall id :: id in Captains(players) <==> exists p :: p in players && p.isCaptain && p.userId == id
  {
    if players == [] {
      assert JoinedAt(players) == {} && CaptainsAt(players) == {};
    } else {
      var n := |players| - 1;
      RosterCounts(players[..n]);
      OneMorePlayer(players[..n], players[n]);
      CountsAppend(players[..n], players[n]);
      assert players == players[..n] + [players[n]];
      assert forall p :: p in players <==> p in players[..n] || p == players[n];
    }
  }

  /** And it is given the votes of the current version, all of them and no other. */
  lemma {:induction false} VotesExactly(votes: seq<StoredVote>, version: nat, v: Vote)
    ensures v in VotesOf(votes, version) <==> StoredVote(v, version) in votes
  {
    if votes == [] {
    } else {
      VotesExactly(votes[1..], version, v);
      assert votes[0] == StoredVote(votes[0].vote, votes[0].resultVersion);
    }
  }

  // ---- evaluating ----

  ghost function CurrentVotes(s: MatchState, version: nat): set<Vote> {
    Elements(VotesOf(s.votes, version))
  }

  /** An evaluation writes the policy's verdict on the votes of the current version to result, stats and match, sets
      the confirmation time exactly when it confirms, and changes nothing else. */
  lemma EvaluationWrites(s: MatchState, now: int)
    requires s.result.Some? && OneStanding(CurrentVotes(s, s.result.value.version))
    ensures var (t, answer) := Finalize(s, now);
      var before := s.result.value;
      var q := Question(|JoinedAt(s.players)|, Captains(s.players), before.winningTeam);
      var standing := Standing(CurrentVotes(s, before.version));
      && answer == Done && t.result.Some?
      && (t.result.value.status == ResultStatus.DISPUTED <==> Objected(q, standing))
      && (t.result.value.status == ResultStatus.CONFIRMED <==>
            !Objected(q, standing) && (CaptainsAgree(q, standing) || MostAgree(q, standing)))
      && t.result.value.confirmedAt == (if t.result.value.status == ResultStatus.CONFIRMED then Some(now) else None)
      && OnlyStatusChanged(s, t)
  {
    RosterCounts(s.players);
    var q := Question(CountJoined(s.players), Captains(s.players), s.result.value.winningTeam);
    PolicyInWords(q, VotesOf(s.votes, s.result.value.version));
  }

  /** The same roster, votes and facts, one status on result and stats, and the match named after it. */
  ghost predicate OnlyStatusChanged(s: MatchState, t: MatchState)
    requires s.result.Some? && t.result.Some?
  {
    var before, after := s.result.value, t.result.value;
    && t.players == s.players && t.votes == s.votes
    && after == before.(status := after.status, confirmedAt := after.confirmedAt)
    && t.stats.Keys == s.stats.Keys
    && (forall u :: u in t.stats ==> t.stats[u] == Stat(s.stats[u].teamSide, s.stats[u].role, after.status))
    && (t.status == MatchStatus.CONFIRMED <==> after.status == ResultStatus.CONFIRMED)
    && (t.status == MatchStatus.DISPUTED <==> after.status == ResultStatus.DISPUTED)
    && (t.status == MatchStatus.RESULT_PENDING <==> after.status == ResultStatus.PARTIAL)
  }

  /** A vote of a participant on the result of the match is stored under its current version and evaluated at once;
      any other call answers why not and writes nothing. */
  lemma ConfirmationWrites(s: MatchState, resultId: nat, v: Vote, now: int)
    ensures var (t, answer) := Confirm(s, resultId, v, now);
      var known := exists p :: p in s.players && p.userId == v.userId;
      var named := s.result.Some? && s.result.value.id == resultId;
      && (answer == Forbidden <==> !known)
      && (answer == NotFound <==> known && !named)
      && (answer == Done <==> known && named)
      && (answer != Done ==> t == s)
      && (answer == Done ==>
            && t.votes == s.votes + [StoredVote(v, s.result.value.version)]
            && t == Finalize(s.(votes := t.votes), now).0)
  {
    assert v.userId in Ids(s.players) <==> exists p :: p in s.players && p.userId == v.userId by {
      if p :| p in s.players && p.userId == v.userId {
        var i :| 0 <= i < |s.players| && s.players[i] == p;
        assert Ids(s.players)[i] == v.userId;
      }
      if i :| 0 <= i < |s.players| && Ids(s.players)[i] == v.userId {
        assert s.players[i] in s.players;
      }
    }
  }

  // ---- the roster calls ----

  /** Locking takes ten participants who all joined, locks every one of them in, and touches no seat, vote, stat or
      result. */
  lemma LockWrites(s: MatchState)
    ensures var (t, answer) := Lock(s);
      && (answer == Done <==> |s.players| == 10 && |JoinedAt(s.players)| == 10)
      && (answer != Done ==> t == s)
      && (answer == Done ==>
            && t == s.(status := LOCKED, players := t.players) && |t.players| == 10
            && forall i :: 0 <= i < 10 ==> t.players[i] == s.players[i].(participation := LOCKED_IN))
  {
    RosterCounts(s.players);
  }

  /** An update changes one participant; in a locked match it also reopens recruiting and unlocks everyone else who
      was locked in. */
  lemma UpdateWrites(s: MatchState, index: nat, participation: Option<ParticipationStatus>, isCaptain: Option<bool>)
    requires UpdatePlayer(s, index, participation, isCaptain).1 == Done
    ensures var t := UpdatePlayer(s, index, participation, isCaptain).0;
      && s.status in {DRAFT, RECRUITING, LOCKED}
      && index < |s.players| == |t.players|
      && t == s.(status := if s.status == LOCKED then RECRUITING else s.status, players := t.players)
      && (isCaptain.Some? ==> t.players[index].isCaptain == isCaptain.value)
      && (participation.Some? ==>
            t.players[index].participation
              == if s.status == LOCKED && participation.value == LOCKED_IN then ACCEPTED else participation.value)
      && forall i :: 0 <= i < |s.players| && i != index ==>
           t.players[i] == if s.status == LOCKED && s.players[i].participation == LOCKED_IN
                           then s.players[i].(participation := ACCEPTED) else s.players[i]
  {
  }

  lemma {:induction false} NewcomersExactly(players: seq<Participant>, joining: seq<Participant>, p: Participant)
    ensures p in Newcomers(players, joining) <==>
      exists j :: j in joining && j.userId !in Ids(players) && p == j.(teamSide := None, assignedRole := None)
  {
    if joining == [] {
    } else {
      NewcomersExactly(players, joining[1..], p);
      assert forall j :: j in joining <==> j == joining[0] || j in joining[1..];
    }
  }

  /** Adding, while the match is drafted or recruiting, keeps everybody in place and appends the unknown users without
      seats; known users are skipped, and a user listed twice is refused. */
  lemma AddingWrites(s: MatchState, joining: seq<Participant>)
    ensures var (t, answer) := AddPlayers(s, joining);
      && (answer == InvalidState <==> s.status !in {DRAFT, RECRUITING})
      && (answer != Done ==> t == s)
      && (answer == Done ==>
            && t == s.(players := t.players) && s.players <= t.players
            && Distinct(Ids(t.players[|s.players|..]))
            && forall p :: p in t.players[|s.players|..] <==>
                 exists j :: j in joining && j.userId !in Ids(s.players)
                             && p == j.(teamSide := None, assignedRole := None))
  {
    var added := Newcomers(s.players, joining);
    NoDuplicateIsDistinct(Ids(added));
    assert (s.players + added)[|s.players|..] == added;
    forall p
      ensures p in added <==>
        exists j :: j in joining && j.userId !in Ids(s.players) && p == j.(teamSide := None, assignedRole := None)
    {
      NewcomersExactly(s.players, joining, p);
    }
  }

  /** A seated participant is locked in, and keeps captaincy and id. */
  lemma {:induction false} SeatingLocksIn(players: seq<Participant>, seats: seq<SeatOf>, i: nat)
    requires i < |players|
    ensures var after := Seated(players, seats)[i];
      && after.userId == players[i].userId && after.isCaptain == players[i].isCaptain
      && after.participation
           == if exists seat :: seat in seats && seat.userId == players[i].userId then LOCKED_IN
              else players[i].participation
    decreases seats
  {
    if seats == [] {
    } else {
      SeatingLocksIn(SeatOne(players, seats[0]), seats[1..], i);
      assert forall seat :: seat in seats <==> seat == seats[0] || seat in seats[1..];
    }
  }
}
