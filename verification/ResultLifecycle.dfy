/** The rows of one match under every call that touches its status, result or player stats. */
module ResultLifecycle {
  import opened ConfirmationPolicy
  import opened Domain
  import opened Prelude
  import opened ResultInput

  datatype Result = Result(
    id: nat, winningTeam: Option<TeamSide>, mvpUserId: string, balanceRating: int, status: ResultStatus,
    confirmedAt: Option<int>, idempotencyKey: Option<string>, version: nat)

  datatype Stat = Stat(teamSide: TeamSide, role: Position, status: ResultStatus)

  datatype StoredVote = StoredVote(vote: Vote, resultVersion: nat)

  datatype MatchState = MatchState(
    status: MatchStatus, players: seq<Participant>, result: Option<Result>, stats: map<string, Stat>,
    votes: seq<StoredVote>)

  datatype Response =
    | Done
    | InvalidRequest
    | Rejected(error: InputError)
    | AlreadyFinalized
    | Forbidden
    | NotFound
    | InvalidState

  // ---- result calls ----

  datatype QuickResult = QuickResult(winningTeam: TeamSide, mvpUserId: string, balanceFeeling: int,
                                     inputIds: seq<string>)

  predicate ValidFeeling(v: int) {
    1 <= v <= 5
  }

  function FindParticipant(players: seq<Participant>, userId: string): (r: Option<Participant>)
    ensures r.Some? ==> r.value in players && r.value.userId == userId
    ensures r.None? ==> userId !in Ids(players)
  {
    if players == [] then None
    else if players[0].userId == userId then Some(players[0])
    else
      var r := FindParticipant(players[1..], userId);
      assert userId in Ids(players) ==> userId in Ids(players[1..]) by {
        if i :| 0 <= i < |players| && Ids(players)[i] == userId {
          assert Ids(players[1..])[i - 1] == userId;
        }
      }
      r
  }

  /** The partial stat of one input player, from the seat the roster gives them. */
  function WithStat(stats: map<string, Stat>, players: seq<Participant>, userId: string): (r: map<string, Stat>) {
    var p := FindParticipant(players, userId);
    if p.Some? && p.value.teamSide.Some? && p.value.assignedRole.Some?
    then stats[userId := Stat(p.value.teamSide.value, p.value.assignedRole.value, ResultStatus.PARTIAL)]
    else stats
  }

  function WithStats(stats: map<string, Stat>, players: seq<Participant>, ids: seq<string>): (r: map<string, Stat>)
    decreases ids
  {
    if ids == [] then stats else WithStats(WithStat(stats, players, ids[0]), players, ids[1..])
  }

  /** The saved result: a new row, or the existing one overwritten at its next version. An absent key
      leaves the stored key as it was, and confirmedAt is not written. */
  function SavedResult(existing: Option<Result>, freshId: nat, q: QuickResult, key: Option<string>): (r: Result) {
    match existing
    case None =>
      Result(freshId, Some(q.winningTeam), q.mvpUserId, q.balanceFeeling, ResultStatus.PARTIAL, None, key, 1)
    case Some(e) =>
      e.(winningTeam := Some(q.winningTeam), mvpUserId := q.mvpUserId, balanceRating := q.balanceFeeling,
         status := ResultStatus.PARTIAL, idempotencyKey := if key.Some? then key else e.idempotencyKey,
         version := e.version + 1)
  }

  predicate SameRequest(existing: Option<Result>, key: Option<string>) {
    && existing.Some? && existing.value.idempotencyKey.Some? && existing.value.idempotencyKey.value != ""
    && existing.value.idempotencyKey == key
  }

  function Submit(s: MatchState, q: QuickResult, key: Option<string>, freshId: nat): (r: (MatchState, Response)) {
    if !ValidFeeling(q.balanceFeeling) then (s, InvalidRequest)
    else if SameRequest(s.result, key) then (s, Done)
    else if s.result.Some? && s.result.value.status == ResultStatus.CONFIRMED then (s, AlreadyFinalized)
    else
      var error := CheckInput(s.players, q.inputIds, q.mvpUserId);
      if error.Some? then (s, Rejected(error.value))
      else
        (s.(status := MatchStatus.RESULT_PENDING, result := Some(SavedResult(s.result, freshId, q, key)),
            stats := WithStats(s.stats, s.players, q.inputIds)), Done)
  }

  predicate Joined(p: Participant) {
    p.participation == ACCEPTED || p.participation == LOCKED_IN
  }

  function CountJoined(players: seq<Participant>): (r: nat) {
    if players == [] then 0 else (if Joined(players[0]) then 1 else 0) + CountJoined(players[1..])
  }

  function Captains(players: seq<Participant>): (r: seq<string>) {
    if players == [] then []
    else if players[0].isCaptain then [players[0].userId] + Captains(players[1..])
    else Captains(players[1..])
  }

  function VotesOf(votes: seq<StoredVote>, version: nat): (r: seq<Vote>) {
    if votes == [] then []
    else if votes[0].resultVersion == version then [votes[0].vote] + VotesOf(votes[1..], version)
    else VotesOf(votes[1..], version)
  }

  /** The policy applied to the votes of the current version. */
  function PolicyVerdict(s: MatchState, result: Result): (r: ResultStatus) {
    Evaluation(Question(CountJoined(s.players), Captains(s.players), result.winningTeam),
               VotesOf(s.votes, result.version))
  }

  function MatchStatusFor(status: ResultStatus): (r: MatchStatus) {
    match status
    case CONFIRMED => MatchStatus.CONFIRMED
    case DISPUTED => MatchStatus.DISPUTED
    case PARTIAL => MatchStatus.RESULT_PENDING
  }

  function StatsWith(stats: map<string, Stat>, status: ResultStatus): (r: map<string, Stat>) {
    map u | u in stats :: stats[u].(status := status)
  }

  /** The write of a finalize: result, stats and match together. */
  function WithVerdict(s: MatchState, result: Result, status: ResultStatus, now: int): (r: MatchState) {
    s.(status := MatchStatusFor(status),
       result := Some(result.(status := status,
                              confirmedAt := if status == ResultStatus.CONFIRMED then Some(now) else None)),
       stats := StatsWith(s.stats, status))
  }

  function Finalize(s: MatchState, now: int): (r: (MatchState, Response)) {
    if s.result.None? then (s, NotFound)
    else (WithVerdict(s, s.result.value, PolicyVerdict(s, s.result.value), now), Done)
  }

  function WithVote(s: MatchState, v: Vote, version: nat): (r: MatchState) {
    s.(votes := s.votes + [StoredVote(v, version)])
  }

  function Confirm(s: MatchState, resultId: nat, v: Vote, now: int): (r: (MatchState, Response)) {
    if v.userId !in Ids(s.players) then (s, Forbidden)
    else if s.result.None? || s.result.value.id != resultId then (s, NotFound)
    else Finalize(WithVote(s, v, s.result.value.version), now)
  }

  datatype Resolution = Resolution(winningTeam: TeamSide, mvpUserId: Option<string>, balanceFeeling: Option<int>)

  function Resolved(r: Result, d: Resolution, now: int): (r': Result) {
    var factualChange :=
      || r.winningTeam != Some(d.winningTeam)
      || (d.mvpUserId.Some? && d.mvpUserId.value != r.mvpUserId)
      || (d.balanceFeeling.Some? && d.balanceFeeling.value != r.balanceRating);
    r.(winningTeam := Some(d.winningTeam),
       mvpUserId := if d.mvpUserId.Some? then d.mvpUserId.value else r.mvpUserId,
       balanceRating := if d.balanceFeeling.Some? then d.balanceFeeling.value else r.balanceRating,
       status := ResultStatus.CONFIRMED, confirmedAt := Some(now),
       version := if factualChange then r.version + 1 else r.version)
  }

  function AdminResolve(s: MatchState, resultId: nat, d: Resolution, now: int): (r: (MatchState, Response)) {
    if d.balanceFeeling.Some? && !ValidFeeling(d.balanceFeeling.value) then (s, InvalidRequest)
    else if d.mvpUserId.Some? && d.mvpUserId.value != "" && d.mvpUserId.value !in Ids(s.players)
    then (s, InvalidRequest)
    else if s.result.None? || s.result.value.id != resultId then (s, NotFound)
    else if s.result.value.status != ResultStatus.DISPUTED then (s, InvalidState)
    else
      (s.(status := MatchStatus.CONFIRMED, result := Some(Resolved(s.result.value, d, now)),
          stats := StatsWith(s.stats, ResultStatus.CONFIRMED)), Done)
  }

  // ---- match calls ----

  function Unseated(players: seq<Participant>): (r: seq<Participant>) {
    seq(|players|, (i: nat) requires i < |players| =>
      players[i].(teamSide := None, assignedRole := None, participation := ACCEPTED))
  }

  /** Reopening deletes the result with its votes and stats, and clears the roster's seats. */
  function Reopen(s: MatchState): (r: (MatchState, Response)) {
    if s.status in {MatchStatus.IN_PROGRESS, MatchStatus.CONFIRMED, MatchStatus.CLOSED}
       || (s.result.Some? && s.result.value.status == ResultStatus.CONFIRMED)
    then (s, InvalidState)
    else if s.status !in {LOCKED, MatchStatus.BALANCED, RESULT_PENDING, MatchStatus.DISPUTED} then (s, InvalidState)
    else
      (MatchState(RECRUITING, Unseated(s.players), None, if s.result.Some? then map[] else s.stats,
                  if s.result.Some? then [] else s.votes), Done)
  }

  function WithParticipation(players: seq<Participant>, from: Option<ParticipationStatus>, to: ParticipationStatus)
    : (r: seq<Participant>)
  {
    seq(|players|, (i: nat) requires i < |players| =>
      if from.None? || players[i].participation == from.value then players[i].(participation := to) else players[i])
  }

  function Lock(s: MatchState): (r: (MatchState, Response)) {
    if |s.players| != 10 || CountJoined(s.players) != 10 then (s, InvalidState)
    else (s.(status := LOCKED, players := WithParticipation(s.players, None, LOCKED_IN)), Done)
  }

  function UpdatePlayer(s: MatchState, index: nat, participation: Option<ParticipationStatus>, isCaptain: Option<bool>)
    : (r: (MatchState, Response))
  {
    if s.status in {MatchStatus.IN_PROGRESS, MatchStatus.CONFIRMED, MatchStatus.CLOSED,
                    MatchStatus.BALANCED, RESULT_PENDING, MatchStatus.DISPUTED}
    then (s, InvalidState)
    else if index >= |s.players| then (s, NotFound)
    else
      var p := s.players[index];
      var q := p.(participation := if participation.Some? then participation.value else p.participation,
                  isCaptain := if isCaptain.Some? then isCaptain.value else p.isCaptain);
      var updated := s.players[index := q];
      if s.status == LOCKED
      then (s.(status := RECRUITING, players := WithParticipation(updated, Some(LOCKED_IN), ACCEPTED)), Done)
      else (s.(players := updated), Done)
  }

  function Newcomers(players: seq<Participant>, joining: seq<Participant>): (r: seq<Participant>)
    ensures forall p :: p in r ==> p.userId !in Ids(players)
  {
    if joining == [] then []
    else if joining[0].userId in Ids(players) then Newcomers(players, joining[1..])
    else [joining[0].(teamSide := None, assignedRole := None)] + Newcomers(players, joining[1..])
  }

  /** A user listed twice violates the table's unique key, and nothing is added. */
  function AddPlayers(s: MatchState, joining: seq<Participant>): (r: (MatchState, Response)) {
    if s.status != DRAFT && s.status != RECRUITING then (s, InvalidState)
    else
      var added := Newcomers(s.players, joining);
      if HasDuplicate(Ids(added)) then (s, InvalidRequest) else (s.(players := s.players + added), Done)
  }

  datatype SeatOf = SeatOf(userId: string, teamSide: TeamSide, role: Position)

  function SeatOne(players: seq<Participant>, seat: SeatOf): (r: seq<Participant>)
    ensures |r| == |players| && forall i :: 0 <= i < |players| ==> r[i].userId == players[i].userId
  {
    seq(|players|, (i: nat) requires i < |players| =>
      if players[i].userId == seat.userId
      then players[i].(teamSide := Some(seat.teamSide), assignedRole := Some(seat.role), participation := LOCKED_IN)
      else players[i])
  }

  /** Seating one player after the other. */
  function Seated(players: seq<Participant>, seats: seq<SeatOf>): (r: seq<Participant>)
    ensures |r| == |players| && forall i :: 0 <= i < |players| ==> r[i].userId == players[i].userId
    decreases seats
  {
    if seats == [] then players else Seated(SeatOne(players, seats[0]), seats[1..])
  }

  predicate KnownSeats(players: seq<Participant>, seats: seq<SeatOf>) {
    forall seat | seat in seats :: seat.userId in Ids(players)
  }

  function SeatIds(seats: seq<SeatOf>): (r: seq<string>) {
    seq(|seats|, (i: nat) requires i < |seats| => seats[i].userId)
  }

  function SeatRoles(seats: seq<SeatOf>, side: TeamSide): (r: seq<Position>) {
    if seats == [] then []
    else if seats[0].teamSide == side then [seats[0].role] + SeatRoles(seats[1..], side)
    else SeatRoles(seats[1..], side)
  }

  predicate ManualSeatsValid(players: seq<Participant>, seats: seq<SeatOf>) {
    && |SeatRoles(seats, A)| == 5 && |SeatRoles(seats, B)| == 5
    && |seats| == |Elements(Ids(players))|
    && |Elements(SeatIds(seats))| == |seats|
    && KnownSeats(players, seats)
    && |Elements(SeatRoles(seats, A))| == |SeatRoles(seats,
                                                     A)| && |Elements(SeatRoles(seats, B))| == |SeatRoles(seats, B)|
  }

  function SaveManualBalance(s: MatchState, seats: seq<SeatOf>): (r: (MatchState, Response)) {
    if s.status in {MatchStatus.IN_PROGRESS, MatchStatus.CONFIRMED, MatchStatus.CLOSED} || |s.players| != 10
       || !ManualSeatsValid(s.players, seats)
    then (s, InvalidRequest)
    else (s.(status := MatchStatus.BALANCED, players := Seated(s.players, seats)), Done)
  }

  /** seats is the stored candidate, if the number names one; an unknown player rolls everything back. */
  function AssignCandidate(s: MatchState, seats: Option<seq<SeatOf>>): (r: (MatchState, Response)) {
    if seats.None? then (s, NotFound)
    else if !KnownSeats(s.players, seats.value) then (s, InvalidRequest)
    else (s.(status := MatchStatus.BALANCED, players := Seated(s.players, seats.value)), Done)
  }

  // ---- invariants over every run ----

  /** Result and stats agree, confirmedAt is set exactly on confirmed results, and no vote is for a version
      still to come. */
  ghost predicate Consistent(s: MatchState) {
    && Distinct(Ids(s.players))
    && (s.result.None? ==> s.stats == map[] && s.votes == [])
    && (s.result.Some? ==> forall v :: v in s.votes ==> v.resultVersion <= s.result.value.version)
    && (forall u :: u in s.stats ==> u in Ids(s.players))
    && (s.result.Some? ==>
          && (forall u :: u in s.stats ==> s.stats[u].status == s.result.value.status)
          && (s.result.value.confirmedAt.Some? <==> s.result.value.status == ResultStatus.CONFIRMED))
  }

  /** The match names the status of its result. */
  ghost predicate StatusAgrees(s: MatchState) {
    s.result.Some? ==> s.status == MatchStatusFor(s.result.value.status)
  }

  datatype Call =
    | SubmitCall(q: QuickResult, key: Option<string>, freshId: nat)
    | ConfirmCall(resultId: nat, v: Vote, now: int)
    | FinalizeCall(now: int)
    | ResolveCall(resultId: nat, d: Resolution, now: int)
    | ReopenCall
    | LockCall
    | UpdatePlayerCall(index: nat, participation: Option<ParticipationStatus>, isCaptain: Option<bool>)
    | AddPlayersCall(joining: seq<Participant>)
    | ManualBalanceCall(seats: seq<SeatOf>)
    | AssignCandidateCall(candidate: Option<seq<SeatOf>>)

  function Apply(s: MatchState, c: Call): (r: (MatchState, Response)) {
    match c
    case SubmitCall(q, key, freshId) => Submit(s, q, key, freshId)
    case ConfirmCall(resultId, v, now) => Confirm(s, resultId, v, now)
    case FinalizeCall(now) => Finalize(s, now)
    case ResolveCall(resultId, d, now) => AdminResolve(s, resultId, d, now)
    case ReopenCall => Reopen(s)
    case LockCall => Lock(s)
    case UpdatePlayerCall(index, participation, isCaptain) => UpdatePlayer(s, index, participation, isCaptain)
    case AddPlayersCall(joining) => AddPlayers(s, joining)
    case ManualBalanceCall(seats) => SaveManualBalance(s, seats)
    case AssignCandidateCall(candidate) => AssignCandidate(s, candidate)
  }

  predicate IsResultCall(c: Call) {
    c.SubmitCall? || c.ConfirmCall? || c.FinalizeCall? || c.ResolveCall? || c.ReopenCall?
  }

  function Outcome(s: MatchState, calls: seq<Call>): (r: MatchState)
    decreases calls
  {
    if calls == [] then s else Outcome(Apply(s, calls[0]).0, calls[1..])
  }

  /** After the loop, the listed players and nobody else have a new stat. */
  lemma {:induction false} WithStatsSets(stats: map<string, Stat>, players: seq<Participant>, ids: seq<string>)
    requires AllAssigned(players) && forall id :: id in ids ==> id in Ids(players)
    ensures var r := WithStats(stats, players, ids);
      && r.Keys == stats.Keys + Elements(ids)
      && (forall u :: u in ids ==> r[u].status == ResultStatus.PARTIAL)
      && (forall u :: u in stats && u !in ids ==> r[u] == stats[u])
    decreases ids
  {
    if ids == [] {
      assert Elements(ids) == {};
    } else {
      var one := WithStat(stats, players, ids[0]);
      assert ids[0] in ids;
      assert one.Keys == stats.Keys + {ids[0]};
      WithStatsSets(one, players, ids[1..]);
      assert Elements(ids) == {ids[0]} + Elements(ids[1..]);
    }
  }

  /** A submission replaces every stat, because the input covers the whole roster and stats never
      outlive it. */
  lemma SubmitKeeps(s: MatchState, q: QuickResult, key: Option<string>, freshId: nat)
    requires Consistent(s)
    ensures Consistent(Submit(s, q, key, freshId).0)
    ensures StatusAgrees(s) ==> StatusAgrees(Submit(s, q, key, freshId).0)
  {
    if CheckInput(s.players, q.inputIds, q.mvpUserId).None? {
      AcceptedExactly(s.players, q.inputIds, q.mvpUserId);
      PermutationFacts(q.inputIds, Ids(s.players));
      forall id ensures id in q.inputIds <==> id in Ids(s.players) {
        assert id in q.inputIds <==> id in Elements(q.inputIds);
      }
      WithStatsSets(s.stats, s.players, q.inputIds);
    }
  }

  lemma ResultCallsKeep(s: MatchState, c: Call)
    requires Consistent(s) && IsResultCall(c) && !c.SubmitCall?
    ensures Consistent(Apply(s, c).0)
    ensures StatusAgrees(s) ==> StatusAgrees(Apply(s, c).0)
  {
    if c.ReopenCall? {
      assert Ids(Unseated(s.players)) == Ids(s.players);
    }
  }

  lemma SameRosterKeeps(s: MatchState, t: MatchState)
    requires Consistent(s) && Ids(t.players) == Ids(s.players) && t.result == s.result && t.stats == s.stats
    requires t.votes == s.votes
    ensures Consistent(t)
  {
  }

  lemma AddPlayersKeeps(s: MatchState, joining: seq<Participant>)
    requires Consistent(s)
    ensures Consistent(AddPlayers(s, joining).0)
  {
    var added := Newcomers(s.players, joining);
    NoDuplicateIsDistinct(Ids(added));
    assert Ids(s.players + added) == Ids(s.players) + Ids(added);
    forall i | 0 <= i < |added| ensures Ids(added)[i] !in Ids(s.players) {
      assert added[i] in added;
    }
  }

  /** The other match calls leave result, stats, votes and the ids of the roster as they are. */
  lemma MatchCallsKeepRows(s: MatchState, c: Call)
    requires !IsResultCall(c) && !c.AddPlayersCall?
    ensures var t := Apply(s, c).0;
      t.result == s.result && t.stats == s.stats && t.votes == s.votes && Ids(t.players) == Ids(s.players)
  {
    match c
    case LockCall => assert Ids(Apply(s, c).0.players) == Ids(s.players);
    case UpdatePlayerCall(_, _, _) => assert Ids(Apply(s, c).0.players) == Ids(s.players);
    case ManualBalanceCall(seats) => assert Ids(Seated(s.players, seats)) == Ids(s.players);
    case AssignCandidateCall(candidate) => assert candidate.Some? ==>
      Ids(Seated(s.players, candidate.value)) == Ids(s.players);
  }

  lemma MatchCallsKeep(s: MatchState, c: Call)
    requires Consistent(s) && !IsResultCall(c)
    ensures Consistent(Apply(s, c).0)
  {
    if c.AddPlayersCall? {
      AddPlayersKeeps(s, c.joining);
    } else {
      MatchCallsKeepRows(s, c);
      SameRosterKeeps(s, Apply(s, c).0);
    }
  }

  /** Every call keeps result, stats and confirmation time consistent. */
  lemma {:induction false} RunsStayConsistent(s: MatchState, calls: seq<Call>)
    requires Consistent(s)
    ensures Consistent(Outcome(s, calls))
    decreases calls
  {
    if calls == [] {
    } else {
      var c := calls[0];
      if c.SubmitCall? {
        SubmitKeeps(s, c.q, c.key, c.freshId);
      } else if IsResultCall(c) {
        ResultCallsKeep(s, c);
      } else {
        MatchCallsKeep(s, c);
      }
      RunsStayConsistent(Apply(s, c).0, calls[1..]);
    }
  }

  // ---- when the match status names its result ----

  /** The guards of a call that writes result, stats and match status together, or deletes the result. */
  predicate WritesResult(s: MatchState, c: Call) {
    match c
    case SubmitCall(q, key, _) =>
      && ValidFeeling(q.balanceFeeling) && !SameRequest(s.result, key)
      && !(s.result.Some? && s.result.value.status == ResultStatus.CONFIRMED)
      && CheckInput(s.players, q.inputIds, q.mvpUserId).None?
    case ConfirmCall(resultId, v, _) => v.userId in Ids(s.players) && s.result.Some? && s.result.value.id == resultId
    case FinalizeCall(_) => s.result.Some?
    case ResolveCall(resultId, d, _) =>
      && (d.balanceFeeling.Some? ==> ValidFeeling(d.balanceFeeling.value))
      && (d.mvpUserId.Some? && d.mvpUserId.value != "" ==> d.mvpUserId.value in Ids(s.players))
      && s.result.Some? && s.result.value.id == resultId && s.result.value.status == ResultStatus.DISPUTED
    case ReopenCall =>
      && s.status in {LOCKED, MatchStatus.BALANCED, RESULT_PENDING, MatchStatus.DISPUTED}
      && !(s.result.Some? && s.result.value.status == ResultStatus.CONFIRMED)
    case _ => false
  }

  /** The guards of a call that sets the match status without looking at an existing result. */
  predicate OverwritesStatus(s: MatchState, c: Call) {
    && s.result.Some?
    && match c
       case LockCall => |s.players| == 10 && CountJoined(s.players) == 10
       case ManualBalanceCall(seats) =>
         && s.status !in {MatchStatus.IN_PROGRESS, MatchStatus.CONFIRMED, MatchStatus.CLOSED}
         && |s.players| == 10 && ManualSeatsValid(s.players, seats)
       case AssignCandidateCall(candidate) => candidate.Some? && KnownSeats(s.players, candidate.value)
       case _ => false
  }

  /** One call: after a result call that goes through the match names its result, after an overwriting call
      it does not, and no other call changes whether it does. */
  lemma CallAgreesExactly(s: MatchState, c: Call)
    ensures StatusAgrees(Apply(s, c).0) <==> WritesResult(s, c) || (StatusAgrees(s) && !OverwritesStatus(s, c))
  {
  }

  /** The rows after the first i calls. */
  function StateAt(s: MatchState, calls: seq<Call>, i: nat): (r: MatchState)
    requires i <= |calls|
  {
    Outcome(s, calls[..i])
  }

  lemma {:induction false} OutcomeSnoc(s: MatchState, calls: seq<Call>, c: Call)
    ensures Outcome(s, calls + [c]) == Apply(Outcome(s, calls), c).0
    decreases calls
  {
    if calls == [] {
      assert (calls + [c])[1..] == [];
      assert Outcome(Apply(s, c).0, []) == Apply(s, c).0;
    } else {
      assert (calls + [c])[1..] == calls[1..] + [c];
      OutcomeSnoc(Apply(s, calls[0]).0, calls[1..], c);
    }
  }

  ghost predicate OverwriteAt(s: MatchState, calls: seq<Call>, i: nat)
    requires i < |calls|
  {
    OverwritesStatus(StateAt(s, calls, i), calls[i])
  }

  ghost predicate ResultWrittenAt(s: MatchState, calls: seq<Call>, j: nat)
    requires j < |calls|
  {
    WritesResult(StateAt(s, calls, j), calls[j])
  }

  /** Every overwriting call among the first n is followed, among them, by a result call that goes through. */
  ghost predicate OverwritesRepaired(s: MatchState, calls: seq<Call>, n: nat)
    requires n <= |calls|
  {
    forall i: nat :: i < n && OverwriteAt(s, calls, i) ==> RepairedWithin(s, calls, i, n)
  }

  ghost predicate RepairedWithin(s: MatchState, calls: seq<Call>, i: nat, n: nat)
    requires n <= |calls|
  {
    exists j: nat :: i < j < n && ResultWrittenAt(s, calls, j)
  }

  lemma RepairedStep(s: MatchState, calls: seq<Call>, n: nat)
    requires n < |calls|
    ensures OverwritesRepaired(s, calls, n + 1) <==>
      !OverwriteAt(s, calls, n) && (ResultWrittenAt(s, calls, n) || OverwritesRepaired(s, calls, n))
  {
    forall i: nat | i < n
      ensures RepairedWithin(s, calls, i, n + 1) <==> RepairedWithin(s, calls, i, n) || ResultWrittenAt(s, calls, n)
    {
      RepairedByNext(s, calls, i, n);
    }
    assert !RepairedWithin(s, calls, n, n + 1);
  }

  lemma RepairedByNext(s: MatchState, calls: seq<Call>, i: nat, n: nat)
    requires i < n < |calls|
    ensures RepairedWithin(s, calls, i, n + 1) <==> RepairedWithin(s, calls, i, n) || ResultWrittenAt(s, calls, n)
  {
  }

  /** Over all runs of all calls: the match names its result exactly when no lock, manual balance or candidate
      went through, while a result existed, since the last result call that went through. */
  lemma {:induction false} RunsAgreeExactly(s: MatchState, calls: seq<Call>, n: nat)
    requires StatusAgrees(s) && n <= |calls|
    ensures StatusAgrees(StateAt(s, calls, n)) <==> OverwritesRepaired(s, calls, n)
  {
    if n == 0 {
      NothingCalled(s, calls);
    } else {
      RunsAgreeExactly(s, calls, n - 1);
      RunsAgreeNext(s, calls, n - 1);
    }
  }

  lemma RunsAgreeNext(s: MatchState, calls: seq<Call>, n: nat)
    requires n < |calls| && (StatusAgrees(StateAt(s, calls, n)) <==> OverwritesRepaired(s, calls, n))
    ensures StatusAgrees(StateAt(s, calls, n + 1)) <==> OverwritesRepaired(s, calls, n + 1)
  {
    AgreementStep(s, calls, n);
    RepairedStep(s, calls, n);
  }

  lemma NothingCalled(s: MatchState, calls: seq<Call>)
    ensures StateAt(s, calls, 0) == s && OverwritesRepaired(s, calls, 0)
  {
  }

  lemma AgreementStep(s: MatchState, calls: seq<Call>, n: nat)
    requires n < |calls|
    ensures StatusAgrees(StateAt(s, calls, n + 1)) <==>
      !OverwriteAt(s, calls, n) && (ResultWrittenAt(s, calls, n) || StatusAgrees(StateAt(s, calls, n)))
  {
    StateStep(s, calls, n);
    CallAgreesExactly(StateAt(s, calls, n), calls[n]);
    NotBoth(StateAt(s, calls, n), calls[n]);
  }

  lemma StateStep(s: MatchState, calls: seq<Call>, n: nat)
    requires n < |calls|
    ensures StateAt(s, calls, n + 1) == Apply(StateAt(s, calls, n), calls[n]).0
  {
    assert calls[..n + 1] == calls[..n] + [calls[n]];
    OutcomeSnoc(s, calls[..n], calls[n]);
  }

  lemma NotBoth(s: MatchState, c: Call)
    ensures !(WritesResult(s, c) && OverwritesStatus(s, c))
  {
  }

  /** In particular the match names its result throughout runs of result calls and reopening only. */
  lemma ResultRunsAgree(s: MatchState, calls: seq<Call>)
    requires StatusAgrees(s) && forall c :: c in calls ==> IsResultCall(c)
    ensures StatusAgrees(Outcome(s, calls))
  {
    forall i: nat | i < |calls| ensures !OverwriteAt(s, calls, i) {
      assert calls[i] in calls;
    }
    RunsAgreeExactly(s, calls, |calls|);
    assert calls[..|calls|] == calls;
  }

  // ---- replays ----

  predicate KeepsResult(c: Call) {
    !c.ReopenCall? && !c.SubmitCall?
  }

  lemma {:induction false} KeySurvives(s: MatchState, calls: seq<Call>, key: string)
    requires s.result.Some? && s.result.value.idempotencyKey == Some(key)
    requires forall c :: c in calls ==> KeepsResult(c)
    ensures var r := Outcome(s, calls).result; r.Some? && r.value.idempotencyKey == Some(key)
    decreases calls
  {
    if calls == [] {
    } else {
      assert calls[0] in calls;
      KeySurvives(Apply(s, calls[0]).0, calls[1..], key);
    }
  }

  /** A submission replayed with its key changes nothing, whatever votes, jobs, resolutions and roster
      edits came in between. */
  lemma ReplayIsIgnored(s: MatchState, q: QuickResult, key: string, freshId: nat, calls: seq<Call>,
                        again: QuickResult, otherId: nat)
    requires key != "" && Submit(s, q, Some(key), freshId).1 == Done && ValidFeeling(again.balanceFeeling)
    requires forall c :: c in calls ==> KeepsResult(c)
    ensures var t := Outcome(Submit(s, q, Some(key), freshId).0, calls);
      Submit(t, again, Some(key), otherId) == (t, Done)
  {
    KeySurvives(Submit(s, q, Some(key), freshId).0, calls, key);
  }

  // ---- the calls as updates of the rows ----

  class MatchStore {
    var status: MatchStatus
    var players: seq<Participant>
    var result: Option<Result>
    var stats: map<string, Stat>
    var votes: seq<StoredVote>

    constructor (initial: MatchState)
      ensures State() == initial
    {
      status, players, result := initial.status, initial.players, initial.result;
      stats, votes := initial.stats, initial.votes;
    }

    ghost function State(): MatchState
      reads this
    {
      MatchState(status, players, result, stats, votes)
    }

    method SubmitQuickResult(q: QuickResult, key: Option<string>, freshId: nat) returns (r: Response)
      modifies this
      ensures (State(), r) == Submit(old(State()), q, key, freshId)
    {
      if !ValidFeeling(q.balanceFeeling) {
        return InvalidRequest;
      }
      if SameRequest(result, key) {
        return Done;
      }
      if result.Some? && result.value.status == ResultStatus.CONFIRMED {
        return AlreadyFinalized;
      }
      var error := CheckInput(players, q.inputIds, q.mvpUserId);
      if error.Some? {
        return Rejected(error.value);
      }
      result := Some(SavedResult(result, freshId, q, key));
      var i := 0;
      while i < |q.inputIds|
        invariant i <= |q.inputIds|
        invariant players == old(players) && votes == old(votes) && status == old(status)
        invariant result == Some(SavedResult(old(result), freshId, q, key))
        invariant WithStats(stats, players, q.inputIds[i..]) == WithStats(old(stats), players, q.inputIds)
      {
        assert q.inputIds[i..][1..] == q.inputIds[i + 1..];
        stats := WithStat(stats, players, q.inputIds[i]);
        i := i + 1;
      }
      status := MatchStatus.RESULT_PENDING;
      return Done;
    }

    method FinalizeResultStatus(now: int) returns (r: Response)
      modifies this
      ensures (State(), r) == Finalize(old(State()), now)
    {
      if result.None? {
        return NotFound;
      }
      var current := result.value;
      var verdict := Evaluate(Question(CountJoined(players), Captains(players), current.winningTeam),
                              VotesOf(votes, current.version));
      result := Some(current.(status := verdict,
                              confirmedAt := if verdict == ResultStatus.CONFIRMED then Some(now) else None));
      stats := StatsWith(stats, verdict);
      status := MatchStatusFor(verdict);
      return Done;
    }

    method ConfirmResult(resultId: nat, v: Vote, now: int) returns (r: Response)
      modifies this
      ensures (State(), r) == Confirm(old(State()), resultId, v, now)
    {
      if v.userId !in Ids(players) {
        return Forbidden;
      }
      if result.None? || result.value.id != resultId {
        return NotFound;
      }
      votes := votes + [StoredVote(v, result.value.version)];
      r := FinalizeResultStatus(now);
    }

    method AdminResolveDispute(resultId: nat, d: Resolution, now: int) returns (r: Response)
      modifies this
      ensures (State(), r) == AdminResolve(old(State()), resultId, d, now)
    {
      if d.balanceFeeling.Some? && !ValidFeeling(d.balanceFeeling.value) {
        return InvalidRequest;
      }
      if d.mvpUserId.Some? && d.mvpUserId.value != "" && d.mvpUserId.value !in Ids(players) {
        return InvalidRequest;
      }
      if result.None? || result.value.id != resultId {
        return NotFound;
      }
      if result.value.status != ResultStatus.DISPUTED {
        return InvalidState;
      }
      result := Some(Resolved(result.value, d, now));
      stats := StatsWith(stats, ResultStatus.CONFIRMED);
      status := MatchStatus.CONFIRMED;
      return Done;
    }

    method ReopenMatch() returns (r: Response)
      modifies this
      ensures (State(), r) == Reopen(old(State()))
    {
      if status in {MatchStatus.IN_PROGRESS, MatchStatus.CONFIRMED, MatchStatus.CLOSED}
         || (result.Some? && result.value.status == ResultStatus.CONFIRMED) {
        return InvalidState;
      }
      if status !in {LOCKED, MatchStatus.BALANCED, RESULT_PENDING, MatchStatus.DISPUTED} {
        return InvalidState;
      }
      if result.Some? {
        stats := map[];
        result := None;
        votes := [];
      }
      players := Unseated(players);
      status := RECRUITING;
      return Done;
    }
  }
}
