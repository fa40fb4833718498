/** Concurrent votes on one result version: each call creates its vote, reads, writes and enqueues a
    follow-up job in separate steps, and workers run the jobs as a read and a write. */
module ResultConvergence {
  import opened ConfirmationPolicy
  import opened Domain
  import opened Prelude
  import opened ResultInput
  import opened ResultLifecycle

  /** Where a confirm call is: vote created, verdict read, verdict written (follow-up not yet enqueued). */
  datatype CallStage = VoteCreated | CallRead(verdict: ResultStatus) | CallWrote

  datatype JobStage = Taken | JobRead(verdict: ResultStatus)

  datatype System = System(rows: MatchState, calls: seq<CallStage>, queued: nat, jobs: seq<JobStage>, workers: nat)

  function Current(s: System): (r: Result)
    requires s.rows.result.Some?
  {
    s.rows.result.value
  }

  function Wanted(s: System): (r: ResultStatus)
    requires s.rows.result.Some?
  {
    PolicyVerdict(s.rows, Current(s))
  }

  /** Result, stats and match all show the policy's verdict on all votes of the version. */
  ghost predicate Settled(rows: MatchState) {
    && rows.result.Some?
    && rows.result.value.status == PolicyVerdict(rows, rows.result.value)
    && (forall u :: u in rows.stats ==> rows.stats[u].status == rows.result.value.status)
    && rows.status == MatchStatusFor(rows.result.value.status)
  }

  // ---- steps ----

  function Removed<T>(xs: seq<T>, i: nat): (r: seq<T>)
    requires i < |xs|
  {
    xs[..i] + xs[i + 1..]
  }

  ghost predicate Begin(s: System, t: System, v: Vote) {
    && s.rows.result.Some? && v.userId in Ids(s.rows.players)
    && t == s.(rows := WithVote(s.rows, v, Current(s).version), calls := s.calls + [VoteCreated])
  }

  ghost predicate ReadCall(s: System, t: System, i: nat) {
    && s.rows.result.Some? && i < |s.calls| && s.calls[i] == VoteCreated
    && t == s.(calls := s.calls[i := CallRead(Wanted(s))])
  }

  ghost predicate WriteCall(s: System, t: System, i: nat, now: int) {
    && s.rows.result.Some? && i < |s.calls| && s.calls[i].CallRead?
    && t == s.(rows := WithVerdict(s.rows, Current(s), s.calls[i].verdict, now), calls := s.calls[i := CallWrote])
  }

  ghost predicate Enqueue(s: System, t: System, i: nat) {
    && i < |s.calls| && s.calls[i] == CallWrote
    && t == s.(calls := Removed(s.calls, i), queued := s.queued + 1)
  }

  ghost predicate TakeJob(s: System, t: System) {
    && |s.jobs| < s.workers && s.queued > 0
    && t == s.(queued := s.queued - 1, jobs := s.jobs + [Taken])
  }

  ghost predicate ReadJob(s: System, t: System, j: nat) {
    && s.rows.result.Some? && j < |s.jobs| && s.jobs[j] == Taken
    && t == s.(jobs := s.jobs[j := JobRead(Wanted(s))])
  }

  ghost predicate WriteJob(s: System, t: System, j: nat, now: int) {
    && s.rows.result.Some? && j < |s.jobs| && s.jobs[j].JobRead?
    && t == s.(rows := WithVerdict(s.rows, Current(s), s.jobs[j].verdict, now), jobs := Removed(s.jobs, j))
  }

  /** Every step except a new call. */
  ghost predicate Drain(s: System, t: System) {
    || (exists i :: ReadCall(s, t, i))
    || (exists i, now :: WriteCall(s, t, i, now))
    || (exists i :: Enqueue(s, t, i))
    || TakeJob(s, t)
    || (exists j :: ReadJob(s, t, j))
    || (exists j, now :: WriteJob(s, t, j, now))
  }

  ghost predicate Next(s: System, t: System) {
    Drain(s, t) || exists v :: Begin(s, t, v)
  }

  ghost predicate Quiet(s: System) {
    s.calls == [] && s.queued == 0 && s.jobs == []
  }

  // ---- agreement with at most one worker ----

  /** While nothing is pending, a running job holds the right verdict and an idle system shows it. */
  ghost predicate Inv(s: System) {
    && s.rows.result.Some? && s.workers <= 1 && |s.jobs| <= 1
    && (s.calls == [] && s.queued == 0 ==>
          && (s.jobs == [] ==> Settled(s.rows))
          && (s.jobs != [] && s.jobs[0].JobRead? ==> s.jobs[0].verdict == Wanted(s)))
  }

  /** Writing a verdict changes neither votes, roster, version nor winner, so it changes no verdict. */
  lemma WriteKeepsWanted(s: System, status: ResultStatus, now: int)
    requires s.rows.result.Some?
    ensures var rows := WithVerdict(s.rows, Current(s), status, now);
      && rows.result.Some? && PolicyVerdict(rows, rows.result.value) == Wanted(s)
      && (status == Wanted(s) ==> Settled(rows))
  {
  }

  lemma WriteJobKeeps(s: System, t: System, j: nat, now: int)
    requires Inv(s) && WriteJob(s, t, j, now)
    ensures Inv(t)
  {
    assert Removed(s.jobs, j) == [];
    WriteKeepsWanted(s, s.jobs[j].verdict, now);
  }

  lemma ReadJobKeeps(s: System, t: System, j: nat)
    requires Inv(s) && ReadJob(s, t, j)
    ensures Inv(t)
  {
    assert j == 0 && t.jobs[0] == JobRead(Wanted(s));
  }

  lemma WriteCallKeeps(s: System, t: System, i: nat, now: int)
    requires Inv(s) && WriteCall(s, t, i, now)
    ensures Inv(t)
  {
    assert t.calls != [];
  }

  lemma NextKeepsInv(s: System, t: System)
    requires Inv(s) && Next(s, t)
    ensures Inv(t)
  {
    if i: nat, now :| WriteCall(s, t, i, now) {
      WriteCallKeeps(s, t, i, now);
    } else if j: nat, now :| WriteJob(s, t, j, now) {
      WriteJobKeeps(s, t, j, now);
    } else if j: nat :| ReadJob(s, t, j) {
      ReadJobKeeps(s, t, j);
    } else if i: nat :| ReadCall(s, t, i) {
      assert t.calls != [];
    }
  }

  ghost predicate Run(run: seq<System>) {
    run != [] && forall i: nat :: i + 1 < |run| ==> Next(run[i], run[i + 1])
  }

  /** Eventual agreement: from a settled start and with jobs run one at a time, whenever nothing is in flight the
      three status fields show the policy applied to all votes. */
  lemma {:induction false} QuietMeansSettled(run: seq<System>, i: nat)
    requires Run(run) && run[0].workers <= 1 && Quiet(run[0]) && Settled(run[0].rows) && i < |run|
    ensures Inv(run[i]) && (Quiet(run[i]) ==> Settled(run[i].rows))
  {
    if i == 0 {
    } else {
      QuietMeansSettled(run, i - 1);
      NextKeepsInv(run[i - 1], run[i]);
    }
  }

  // ---- quiet is reached ----

  function CallWork(c: CallStage): (r: nat) {
    match c
    case VoteCreated => 6
    case CallRead(_) => 5
    case CallWrote => 4
  }

  function JobWork(j: JobStage): (r: nat) {
    if j == Taken then 2 else 1
  }

  function CallsWork(cs: seq<CallStage>): (r: nat) {
    if cs == [] then 0 else CallWork(cs[0]) + CallsWork(cs[1..])
  }

  function JobsWork(js: seq<JobStage>): (r: nat) {
    if js == [] then 0 else JobWork(js[0]) + JobsWork(js[1..])
  }

  /** Steps left until nothing is pending. */
  function Work(s: System): (r: nat) {
    CallsWork(s.calls) + 3 * s.queued + JobsWork(s.jobs)
  }

  lemma {:induction false} CallsWorkAt(cs: seq<CallStage>, i: nat, c: CallStage)
    requires i < |cs|
    ensures CallsWork(cs[i := c]) == CallsWork(cs) - CallWork(cs[i]) + CallWork(c)
    ensures CallsWork(Removed(cs, i)) == CallsWork(cs) - CallWork(cs[i])
    ensures CallsWork(cs) >= CallWork(cs[i])
  {
    if i == 0 {
      assert Removed(cs, 0) == cs[1..] && cs[0 := c][1..] == cs[1..];
    } else {
      CallsWorkAt(cs[1..], i - 1, c);
      assert cs[i := c][1..] == cs[1..][i - 1 := c];
      assert Removed(cs, i) == [cs[0]] + Removed(cs[1..], i - 1);
    }
  }

  lemma {:induction false} JobsWorkAt(js: seq<JobStage>, i: nat, j: JobStage)
    requires i < |js|
    ensures JobsWork(js[i := j]) == JobsWork(js) - JobWork(js[i]) + JobWork(j)
    ensures JobsWork(Removed(js, i)) == JobsWork(js) - JobWork(js[i])
    ensures JobsWork(js) >= JobWork(js[i])
  {
    if i == 0 {
      assert Removed(js, 0) == js[1..] && js[0 := j][1..] == js[1..];
    } else {
      JobsWorkAt(js[1..], i - 1, j);
      assert js[i := j][1..] == js[1..][i - 1 := j];
      assert Removed(js, i) == [js[0]] + Removed(js[1..], i - 1);
    }
  }

  lemma {:induction false} JobsWorkAppend(js: seq<JobStage>, j: JobStage)
    ensures JobsWork(js + [j]) == JobsWork(js) + JobWork(j)
  {
    if js == [] {
    } else {
      JobsWorkAppend(js[1..], j);
      assert (js + [j])[1..] == js[1..] + [j];
    }
  }

  /** Every step other than a new call leaves exactly one step less to do. */
  lemma DrainWorksOff(s: System, t: System)
    requires Drain(s, t)
    ensures Work(t) == Work(s) - 1
  {
    if i: nat :| ReadCall(s, t, i) {
      CallsWorkAt(s.calls, i, t.calls[i]);
    } else if i: nat, now :| WriteCall(s, t, i, now) {
      CallsWorkAt(s.calls, i, CallWrote);
    } else if i: nat :| Enqueue(s, t, i) {
      CallsWorkAt(s.calls, i, CallWrote);
    } else if TakeJob(s, t) {
      JobsWorkAppend(s.jobs, Taken);
    } else if j: nat :| ReadJob(s, t, j) {
      JobsWorkAt(s.jobs, j, t.jobs[j]);
    } else {
      var j: nat, now :| WriteJob(s, t, j, now);
      JobsWorkAt(s.jobs, j, Taken);
    }
  }

  lemma NoWorkIsQuiet(s: System)
    ensures Work(s) == 0 <==> Quiet(s)
  {
  }

  /** Something can always be done until the system is quiet. */
  lemma PendingCanStep(s: System) returns (t: System)
    requires s.rows.result.Some? && s.workers > 0 && !Quiet(s)
    ensures Drain(s, t)
  {
    if s.calls != [] {
      match s.calls[0] {
        case VoteCreated =>
          t := s.(calls := s.calls[0 := CallRead(Wanted(s))]);
          assert ReadCall(s, t, 0);
        case CallRead(verdict) =>
          t := s.(rows := WithVerdict(s.rows, Current(s), verdict, 0), calls := s.calls[0 := CallWrote]);
          assert WriteCall(s, t, 0, 0);
        case CallWrote =>
          t := s.(calls := Removed(s.calls, 0), queued := s.queued + 1);
          assert Enqueue(s, t, 0);
      }
    } else if s.jobs != [] {
      if s.jobs[0] == Taken {
        t := s.(jobs := s.jobs[0 := JobRead(Wanted(s))]);
        assert ReadJob(s, t, 0);
      } else {
        t := s.(rows := WithVerdict(s.rows, Current(s), s.jobs[0].verdict, 0), jobs := Removed(s.jobs, 0));
        assert WriteJob(s, t, 0, 0);
      }
    } else {
      t := s.(queued := s.queued - 1, jobs := s.jobs + [Taken]);
    }
  }

  ghost predicate Stuck(s: System) {
    forall t :: !Drain(s, t)
  }

  ghost predicate Draining(run: seq<System>) {
    run != [] && forall i: nat :: i + 1 < |run| ==> Drain(run[i], run[i + 1])
  }

  lemma {:induction false} DrainingWorksOff(run: seq<System>)
    requires Draining(run)
    ensures Work(run[0]) == Work(run[|run| - 1]) + |run| - 1
  {
    if |run| > 1 {
      var n := |run| - 1;
      DrainingWorksOff(run[..n]);
      DrainWorksOff(run[n - 1], run[n]);
    }
  }

  lemma {:induction false} DrainingKeepsInv(run: seq<System>)
    requires Draining(run) && Inv(run[0])
    ensures Inv(run[|run| - 1]) && run[|run| - 1].workers == run[0].workers
  {
    if |run| > 1 {
      var n := |run| - 1;
      DrainingKeepsInv(run[..n]);
      NextKeepsInv(run[n - 1], run[n]);
    }
  }

  /** Once voting stops, every schedule settles the match: no schedule is longer than the work at hand,
      and one that cannot go on shows the policy's verdict on all votes. */
  lemma VotingStopsThenSettles(run: seq<System>)
    requires Draining(run) && Inv(run[0]) && run[0].workers == 1
    ensures |run| - 1 <= Work(run[0])
    ensures Stuck(run[|run| - 1]) ==> |run| - 1 == Work(run[0]) && Settled(run[|run| - 1].rows)
  {
    var last := run[|run| - 1];
    DrainingWorksOff(run);
    DrainingKeepsInv(run);
    if Stuck(last) {
      if !Quiet(last) {
        var t := PendingCanStep(last);
      }
      NoWorkIsQuiet(last);
    }
  }

  /** A submission opens a version that has no votes yet, and leaves the match settled. */
  lemma SubmissionStartsSettled(s: MatchState, q: QuickResult, key: Option<string>, freshId: nat)
    requires Consistent(s) && Submit(s, q, key, freshId).1 == Done && !SameRequest(s.result, key)
    ensures Settled(Submit(s, q, key, freshId).0)
  {
    var t := Submit(s, q, key, freshId).0;
    SubmitKeeps(s, q, key, freshId);
    NoVotesAbove(s.votes, t.result.value.version);
    UnvotedIsPartial(Question(CountJoined(t.players), Captains(t.players), t.result.value.winningTeam));
  }

  lemma UnvotedIsPartial(q: Question)
    ensures Evaluation(q, []) == ResultStatus.PARTIAL
  {
    assert Latest([]) == [];
    assert q.captainUserIds != [] ==> q.captainUserIds[0] in q.captainUserIds;
  }

  lemma {:induction false} NoVotesAbove(votes: seq<StoredVote>, version: nat)
    requires forall v :: v in votes ==> v.resultVersion < version
    ensures VotesOf(votes, version) == []
  {
    if votes == [] {
    } else {
      assert votes[0] in votes;
      NoVotesAbove(votes[1..], version);
    }
  }

  // ---- why one worker ----

  function PlainConfirm(userId: string): (v: Vote) {
    Vote(userId, CONFIRM, None, 0)
  }

  function Contesting(userId: string, winner: TeamSide): (v: Vote) {
    Vote(userId, DISPUTE, Some(Other(winner)), 1)
  }

  predicate Contested(votes: seq<Vote>, userId: string, winner: TeamSide) {
    votes == [Contesting(userId, winner)] || votes == [PlainConfirm(userId), Contesting(userId, winner)]
  }

  lemma AloneStands(v: Vote)
    ensures Standing(Elements([v])) == {v} && OneStanding(Elements([v]))
  {
    assert Elements([v]) == {v};
    assert Standing({v}) == {v};
  }

  /** One plain confirmation disputes nothing. */
  lemma ConfirmedIsUndisputed(q: Question, userId: string)
    ensures Evaluation(q, [PlainConfirm(userId)]) != ResultStatus.DISPUTED
  {
    var v := PlainConfirm(userId);
    AloneStands(v);
    EvaluationIsVerdictOnStanding(q, [v]);
    assert |{v} - Confirming({v})| == 0 by {
      assert {v} - Confirming({v}) == {};
    }
    assert forall w :: w in {v} ==> !Contradicts(w, q.winningTeam);
  }

  /** A standing vote for the other winner disputes the result, alone or after the user's confirmation. */
  lemma ContestedIsDisputed(q: Question, userId: string, winner: TeamSide, votes: seq<Vote>)
    requires q.winningTeam == Some(winner) && Contested(votes, userId, winner)
    ensures Evaluation(q, votes) == ResultStatus.DISPUTED
  {
    var w := Contesting(userId, winner);
    assert votes[|votes| - 1] == w;
    assert w in Standing(Elements(votes));
    EvaluationIsVerdictOnStanding(q, votes);
    assert Contradicts(w, q.winningTeam);
  }

  /** The rows of a submission with the votes cast on it so far, whatever verdict is stored. */
  ghost predicate Submitted(rows: MatchState, q: QuickResult, votes: seq<Vote>) {
    && rows.result.Some? && rows.result.value.winningTeam == Some(q.winningTeam)
    && q.mvpUserId in Ids(rows.players)
    && VotesOf(rows.votes, rows.result.value.version) == votes
  }

  lemma SubmissionHasNoVotes(m: MatchState, q: QuickResult, key: Option<string>, freshId: nat)
    requires Consistent(m) && Submit(m, q, key, freshId).1 == Done && !SameRequest(m.result, key)
    ensures Submitted(Submit(m, q, key, freshId).0, q, [])
  {
    NoVotesAbove(m.votes, Submit(m, q, key, freshId).0.result.value.version);
    AcceptedExactly(m.players, q.inputIds, q.mvpUserId);
  }

  lemma VoteCast(rows: MatchState, q: QuickResult, votes: seq<Vote>, v: Vote)
    requires Submitted(rows, q, votes)
    ensures Submitted(WithVote(rows, v, rows.result.value.version), q, votes + [v])
  {
    VotesAppend(rows.votes, v, rows.result.value.version);
  }

  lemma VerdictStored(rows: MatchState, q: QuickResult, votes: seq<Vote>, status: ResultStatus)
    requires Submitted(rows, q, votes)
    ensures Submitted(WithVerdict(rows, rows.result.value, status, 0), q, votes)
  {
  }

  lemma SubmittedVerdict(rows: MatchState, q: QuickResult, votes: seq<Vote>)
    requires Submitted(rows, q, votes)
    ensures votes == [PlainConfirm(q.mvpUserId)] ==> PolicyVerdict(rows, rows.result.value) != ResultStatus.DISPUTED
    ensures Contested(votes, q.mvpUserId, q.winningTeam) ==>
      PolicyVerdict(rows, rows.result.value) == ResultStatus.DISPUTED
  {
    var question := Question(CountJoined(rows.players), Captains(rows.players), rows.result.value.winningTeam);
    ConfirmedIsUndisputed(question, q.mvpUserId);
    if Contested(votes, q.mvpUserId, q.winningTeam) {
      ContestedIsDisputed(question, q.mvpUserId, q.winningTeam, votes);
    }
  }

  lemma {:induction false} VotesAppend(votes: seq<StoredVote>, v: Vote, version: nat)
    ensures VotesOf(votes + [StoredVote(v, version)], version) == VotesOf(votes, version) + [v]
  {
    if votes == [] {
    } else {
      VotesAppend(votes[1..], v, version);
      assert (votes + [StoredVote(v, version)])[1..] == votes[1..] + [StoredVote(v, version)];
    }
  }

  lemma CallStarts(s: System, v: Vote) returns (run: seq<System>)
    requires s.rows.result.Some? && s.calls == [] && v.userId in Ids(s.rows.players)
    ensures Run(run) && run[0] == s
    ensures var voted := WithVote(s.rows, v, Current(s).version);
      run[|run| - 1] == s.(rows := voted, calls := [CallRead(PolicyVerdict(voted, voted.result.value))])
  {
    var a := s.(rows := WithVote(s.rows, v, Current(s).version), calls := [VoteCreated]);
    var b := a.(calls := [CallRead(Wanted(a))]);
    assert Next(s, a) by {
      assert Begin(s, a, v);
    }
    assert Next(a, b) by {
      assert ReadCall(a, b, 0);
    }
    run := [s, a, b];
  }

  lemma CallEnds(s: System, verdict: ResultStatus) returns (run: seq<System>)
    requires s.rows.result.Some? && s.calls == [CallRead(verdict)]
    ensures Run(run) && run[0] == s
    ensures run[|run| - 1] ==
      s.(rows := WithVerdict(s.rows, Current(s), verdict, 0), calls := [], queued := s.queued + 1)
  {
    var a := s.(rows := WithVerdict(s.rows, Current(s), verdict, 0), calls := [CallWrote]);
    var b := a.(calls := [], queued := s.queued + 1);
    assert Next(s, a) by {
      assert WriteCall(s, a, 0, 0);
    }
    assert Next(a, b) by {
      assert Removed([CallWrote], 0) == [];
      assert Enqueue(a, b, 0);
    }
    run := [s, a, b];
  }

  /** One confirm call run without interruption. */
  lemma CallRuns(s: System, v: Vote) returns (run: seq<System>)
    requires s.rows.result.Some? && s.calls == [] && v.userId in Ids(s.rows.players)
    ensures Run(run) && run[0] == s
    ensures var last := run[|run| - 1];
      var voted := WithVote(s.rows, v, Current(s).version);
      last == s.(queued := s.queued + 1,
                 rows := WithVerdict(voted, voted.result.value, PolicyVerdict(voted, voted.result.value), 0))
  {
    var voted := WithVote(s.rows, v, Current(s).version);
    var r1 := CallStarts(s, v);
    var r2 := CallEnds(r1[|r1| - 1], PolicyVerdict(voted, voted.result.value));
    RunsJoin(r1, r2);
    run := r1 + r2[1..];
  }

  /** A job takes a queue entry and reads. */
  lemma JobReads(s: System) returns (run: seq<System>)
    requires s.rows.result.Some? && s.queued > 0 && |s.jobs| < s.workers
    ensures Run(run) && run[0] == s
    ensures run[|run| - 1] == s.(queued := s.queued - 1, jobs := s.jobs + [JobRead(Wanted(s))])
  {
    var a := s.(queued := s.queued - 1, jobs := s.jobs + [Taken]);
    var b := a.(jobs := s.jobs + [JobRead(Wanted(a))]);
    assert a.jobs[|s.jobs| := JobRead(Wanted(a))] == b.jobs;
    assert TakeJob(s, a);
    assert ReadJob(a, b, |s.jobs|);
    run := [s, a, b];
  }

  lemma RunsJoin(r1: seq<System>, r2: seq<System>)
    requires Run(r1) && Run(r2) && r1[|r1| - 1] == r2[0]
    ensures Run(r1 + r2[1..])
    ensures (r1 + r2[1..])[0] == r1[0] && (r1 + r2[1..])[|r1 + r2[1..]| - 1] == r2[|r2| - 1]
  {
    var r := r1 + r2[1..];
    forall i: nat | i + 1 < |r| ensures Next(r[i], r[i + 1]) {
      if i + 1 >= |r1| {
        assert r[i + 1] == r2[i + 2 - |r1|];
        assert r[i] == r2[i + 1 - |r1|];
      }
    }
  }

  /** Two workers: the job that read first writes last, and its stale verdict stays. */
  lemma StaleJobWritesLast(s: System, newer: ResultStatus, stale: ResultStatus) returns (run: seq<System>)
    requires s.rows.result.Some? && s.calls == [] && s.queued == 0 && s.jobs == [JobRead(stale), JobRead(newer)]
    ensures Run(run) && run[0] == s
    ensures var last := run[|run| - 1];
      Quiet(last) && last.rows.result.Some? && last.rows.result.value.status == stale && Wanted(last) == Wanted(s)
  {
    var a := s.(rows := WithVerdict(s.rows, Current(s), newer, 0), jobs := [JobRead(stale)]);
    var b := a.(rows := WithVerdict(a.rows, Current(a), stale, 0), jobs := []);
    assert Removed(s.jobs, 1) == a.jobs && Removed(a.jobs, 0) == b.jobs;
    assert WriteJob(s, a, 1, 0);
    assert WriteJob(a, b, 0, 0);
    WriteKeepsWanted(s, newer, 0);
    WriteKeepsWanted(a, stale, 0);
    run := [s, a, b];
  }

  /** One confirm call and the read of its job, from the rows of a submission. */
  lemma VoteAndJobRead(s: System, q: QuickResult, votes: seq<Vote>, v: Vote) returns (run: seq<System>)
    requires Submitted(s.rows, q, votes) && v.userId == q.mvpUserId
    requires s.calls == [] && s.queued == 0 && |s.jobs| < s.workers
    ensures Run(run) && run[0] == s
    ensures var last := run[|run| - 1];
      && Submitted(last.rows, q, votes + [v]) && last.calls == [] && last.queued == 0 && last.workers == s.workers
      && last.jobs == s.jobs + [JobRead(Wanted(last))]
  {
    var called := CallRuns(s, v);
    var voted := WithVote(s.rows, v, Current(s).version);
    VoteCast(s.rows, q, votes, v);
    VerdictStored(voted, q, votes + [v], PolicyVerdict(voted, voted.result.value));
    var read := JobReads(called[|called| - 1]);
    RunsJoin(called, read);
    run := called + read[1..];
  }

  /** With more workers agreement can fail for good, after every submission: its MVP confirms, then contests the
      winner, and the first vote's job writes last. */
  lemma MoreWorkersCanDisagree(m: MatchState, q: QuickResult, key: Option<string>, freshId: nat, workers: nat)
    returns (run: seq<System>)
    requires Consistent(m) && Submit(m, q, key, freshId).1 == Done && !SameRequest(m.result, key) && workers >= 2
    ensures Run(run) && run[0] == System(Submit(m, q, key, freshId).0, [], 0, [], workers)
    ensures Quiet(run[|run| - 1]) && !Settled(run[|run| - 1].rows)
  {
    SubmissionHasNoVotes(m, q, key, freshId);
    var s := System(Submit(m, q, key, freshId).0, [], 0, [], workers);
    run := StaleVoteRun(s, q);
  }

  lemma StaleVoteRun(s: System, q: QuickResult) returns (run: seq<System>)
    requires Submitted(s.rows, q, []) && s.calls == [] && s.queued == 0 && s.jobs == [] && s.workers >= 2
    ensures Run(run) && run[0] == s && Quiet(run[|run| - 1]) && !Settled(run[|run| - 1].rows)
  {
    var v, w := PlainConfirm(q.mvpUserId), Contesting(q.mvpUserId, q.winningTeam);
    var r1 := VoteAndJobRead(s, q, [], v);
    var s1 := r1[|r1| - 1];
    assert [] + [v] == [v];
    var r2 := VoteAndJobRead(s1, q, [v], w);
    var s2 := r2[|r2| - 1];
    assert [v] + [w] == [v, w];
    var r3 := FirstVerdictStays(s1, s2, q);
    RunsJoin(r2, r3);
    RunsJoin(r1, r2 + r3[1..]);
    run := r1 + (r2 + r3[1..])[1..];
  }

  /** Both jobs have read, the first before the second vote; writing last, its verdict stays. */
  lemma FirstVerdictStays(s1: System, s2: System, q: QuickResult) returns (run: seq<System>)
    requires Submitted(s1.rows, q, [PlainConfirm(q.mvpUserId)])
    requires Submitted(s2.rows, q, [PlainConfirm(q.mvpUserId), Contesting(q.mvpUserId, q.winningTeam)])
    requires s2.calls == [] && s2.queued == 0 && s2.jobs == [JobRead(Wanted(s1)), JobRead(Wanted(s2))]
    ensures Run(run) && run[0] == s2 && Quiet(run[|run| - 1]) && !Settled(run[|run| - 1].rows)
  {
    SubmittedVerdict(s1.rows, q, [PlainConfirm(q.mvpUserId)]);
    SubmittedVerdict(s2.rows, q, [PlainConfirm(q.mvpUserId), Contesting(q.mvpUserId, q.winningTeam)]);
    run := StaleJobWritesLast(s2, Wanted(s2), Wanted(s1));
  }

  /** In every run from the given rows, a quiet system is settled. */
  ghost predicate AlwaysAgrees(s: System) {
    forall run: seq<System>, i: nat :: Run(run) && run[0] == s && i < |run| ==> QuietImpliesSettled(run, i)
  }

  ghost predicate QuietImpliesSettled(run: seq<System>, i: nat)
    requires i < |run|
  {
    Quiet(run[i]) ==> Settled(run[i].rows)
  }

  /** After every submission, agreement in every run of votes and jobs is exactly the absence of a second
      concurrent job. */
  lemma AgreementNeedsOneWorker(m: MatchState, q: QuickResult, key: Option<string>, freshId: nat, workers: nat)
    requires Consistent(m) && Submit(m, q, key, freshId).1 == Done && !SameRequest(m.result, key)
    ensures AlwaysAgrees(System(Submit(m, q, key, freshId).0, [], 0, [], workers)) <==> workers <= 1
  {
    var s := System(Submit(m, q, key, freshId).0, [], 0, [], workers);
    if workers <= 1 {
      SubmissionStartsSettled(m, q, key, freshId);
      forall run: seq<System>, i: nat | Run(run) && run[0] == s && i < |run| ensures QuietImpliesSettled(run, i) {
        QuietMeansSettled(run, i);
      }
    } else {
      var run := MoreWorkersCanDisagree(m, q, key, freshId, workers);
      assert !QuietImpliesSettled(run, |run| - 1);
    }
  }

  // ---- aborted calls ----

  /** A confirm call that fails after storing its vote: before its read, before its write or before it
      enqueues its follow-up job. */
  ghost predicate AbortCall(s: System, t: System, i: nat) {
    i < |s.calls| && t == s.(calls := Removed(s.calls, i))
  }

  /** Something still to come will read the votes, or what is under way shows them already. */
  ghost predicate Covered(s: System)
    requires s.rows.result.Some?
  {
    || s.calls != [] || s.queued > 0
    || if s.jobs == [] then Settled(s.rows) else s.jobs[0] == Taken || s.jobs[0] == JobRead(Wanted(s))
  }

  /** The invariant is the weakest: with one worker, agreement in every run from a state is the invariant. */
  lemma InvariantIsWeakest(s: System)
    requires s.rows.result.Some? && s.workers <= 1 && |s.jobs| <= 1
    ensures AlwaysAgrees(s) <==> Inv(s)
    ensures Inv(s) <==> Covered(s)
  {
    if Inv(s) {
      forall run: seq<System>, i: nat | Run(run) && run[0] == s && i < |run| ensures QuietImpliesSettled(run, i) {
        InvAlong(run, i);
      }
    } else if s.jobs == [] {
      assert Run([s]) && !QuietImpliesSettled([s], 0);
    } else {
      var t := s.(rows := WithVerdict(s.rows, Current(s), s.jobs[0].verdict, 0), jobs := []);
      WriteKeepsWanted(s, s.jobs[0].verdict, 0);
      assert Removed(s.jobs, 0) == [];
      assert WriteJob(s, t, 0, 0);
      assert Run([s, t]) && !QuietImpliesSettled([s, t], 1);
    }
  }

  lemma {:induction false} InvAlong(run: seq<System>, i: nat)
    requires Run(run) && Inv(run[0]) && i < |run|
    ensures Inv(run[i])
  {
    if i == 0 {
    } else {
      InvAlong(run, i - 1);
      NextKeepsInv(run[i - 1], run[i]);
    }
  }

  /** Whatever stage it strikes, an abort keeps agreement exactly when another call, a queued job or an unread
      job remains, or the verdict on all votes is already stored or about to be. */
  lemma AbortAgreesExactly(s: System, t: System, i: nat)
    requires Inv(s) && AbortCall(s, t, i)
    ensures AlwaysAgrees(t) <==>
      || |s.calls| > 1 || s.queued > 0
      || if s.jobs == [] then Settled(s.rows) else s.jobs[0] == Taken || s.jobs[0] == JobRead(Wanted(s))
  {
    InvariantIsWeakest(t);
    assert |t.calls| == |s.calls| - 1;
  }

  /** A call that has stored its vote and perhaps read. */
  lemma VoteStored(s: System, v: Vote, read: bool) returns (run: seq<System>, rows: MatchState)
    requires s.rows.result.Some? && s.calls == [] && v.userId in Ids(s.rows.players)
    ensures Run(run) && run[0] == s && rows == WithVote(s.rows, v, Current(s).version)
    ensures var last := run[|run| - 1];
      last == s.(rows := rows, calls := last.calls) && |last.calls| == 1 && last.calls[0].CallRead? == read
  {
    rows := WithVote(s.rows, v, Current(s).version);
    var a := s.(rows := rows, calls := [VoteCreated]);
    var b := a.(calls := [CallRead(Wanted(a))]);
    assert Begin(s, a, v);
    assert ReadCall(a, b, 0);
    run := if read then [s, a, b] else [s, a];
  }

  /** A follow-up job that fails after it was taken; jobs are not retried. */
  ghost predicate AbortJob(s: System, t: System, j: nat) {
    j < |s.jobs| && t == s.(jobs := Removed(s.jobs, j))
  }

  /** An aborted job keeps agreement exactly when a call or another queued job remains, or the verdict on all
      votes is already stored. */
  lemma AbortedJobAgreesExactly(s: System, t: System, j: nat)
    requires Inv(s) && AbortJob(s, t, j)
    ensures AlwaysAgrees(t) <==> s.calls != [] || s.queued > 0 || Settled(s.rows)
  {
    assert Removed(s.jobs, j) == [];
    InvariantIsWeakest(t);
  }

  /** Every submission admits a vote whose call, aborted before its write, leaves the match unsettled for good. */
  lemma AbortedVoteIsLost(m: MatchState, q: QuickResult, key: Option<string>, freshId: nat, workers: nat, read: bool)
    returns (run: seq<System>, last: System)
    requires Consistent(m) && Submit(m, q, key, freshId).1 == Done && !SameRequest(m.result, key)
    ensures Run(run) && run[0] == System(Submit(m, q, key, freshId).0, [], 0, [], workers)
    ensures AbortCall(run[|run| - 1], last, 0) && run[|run| - 1].calls[0].CallRead? == read
    ensures Quiet(last) && !Settled(last.rows)
  {
    var s := System(Submit(m, q, key, freshId).0, [], 0, [], workers);
    var v := Contesting(q.mvpUserId, q.winningTeam);
    SubmissionHasNoVotes(m, q, key, freshId);
    VoteCast(s.rows, q, [], v);
    assert [] + [v] == [v];
    var rows: MatchState;
    run, rows := VoteStored(s, v, read);
    SubmittedVerdict(rows, q, [v]);
    last := run[|run| - 1].(calls := []);
    assert Removed(run[|run| - 1].calls, 0) == [];
  }
}
