/** Seating a candidate on the roster, and the combination key a rematch reads back from the match. */
module Rematch {
  import opened Balancer
  import opened BalancerOptimality
  import opened CandidateKeys
  import opened Domain
  import opened Prelude
  import opened Reroll
  import opened ResultInput
  import opened ResultLifecycle
  import opened TeamMetrics

  /** What a match stores about its balance. */
  datatype Lobby = Lobby(roster: seq<Participant>, candidates: seq<Candidate>, selectedNo: Option<nat>)

  function SeatsOn(seats: seq<Seat>, side: TeamSide): (r: seq<SeatOf>) {
    seq(|seats|, (i: nat) requires i < |seats| => SeatOf(seats[i].userId, side, seats[i].role))
  }

  function SeatsFor(c: Candidate): (r: seq<SeatOf>) {
    SeatsOn(c.split.teamA, A) + SeatsOn(c.split.teamB, B)
  }

  function FindByNo(cs: seq<Candidate>, no: Option<nat>): (r: Option<Candidate>) {
    if cs == [] then None else if Some(cs[0].candidateNo) == no then Some(cs[0]) else FindByNo(cs[1..], no)
  }

  /** Assigning the candidate of a number; None when there is none or it names an unknown player. */
  function Assign(l: Lobby, no: nat): (r: Option<Lobby>) {
    var c := FindByNo(l.candidates, Some(no));
    if c.None? || !KnownSeats(l.roster, SeatsFor(c.value)) then None
    else Some(l.(roster := Seated(l.roster, SeatsFor(c.value)), selectedNo := Some(no)))
  }

  function RoleIndex(role: Option<Position>): (r: nat) {
    if role.Some? then LaneIndex(role.value) else 5
  }

  function InsertByRole(p: Participant, ps: seq<Participant>): (r: seq<Participant>) {
    if ps == [] || RoleIndex(p.assignedRole) <= RoleIndex(ps[0].assignedRole) then [p] + ps
    else [ps[0]] + InsertByRole(p, ps[1..])
  }

  /** The stable sort by lane. */
  function ByRole(ps: seq<Participant>): (r: seq<Participant>) {
    if ps == [] then [] else InsertByRole(ps[0], ByRole(ps[1..]))
  }

  function SeatedOnA(ps: seq<Participant>): (r: seq<Participant>)
    ensures forall p :: p in r <==> p in ps && p.teamSide == Some(A) && p.assignedRole.Some?
  {
    if ps == [] then []
    else (if ps[0].teamSide == Some(A) && ps[0].assignedRole.Some? then [ps[0]] else []) + SeatedOnA(ps[1..])
  }

  function AsSeat(p: Participant): (r: Seat) {
    Seat(p.userId, if p.assignedRole.Some? then p.assignedRole.value else FILL, 0.0)
  }

  function AsSeats(ps: seq<Participant>): (r: seq<Seat>) {
    seq(|ps|, (i: nat) requires i < |ps| => AsSeat(ps[i]))
  }

  /** The key of the seats the roster shows, when side A is complete. */
  function RosterKey(roster: seq<Participant>): (r: Option<string>) {
    var teamA := ByRole(SeatedOnA(roster));
    if |teamA| != 5 then None else Some(CombinationKey(AsSeats(teamA)))
  }

  /** The combination a rematch asks to avoid: the stored candidate of the selected number, else the roster. */
  function SelectedKey(l: Lobby): (r: Option<string>) {
    var c := FindByNo(l.candidates, l.selectedNo);
    if c.Some? then Some(c.value.combinationKey) else RosterKey(l.roster)
  }

  // ---- seating ----

  lemma {:induction false} SeatedEffect(ps: seq<Participant>, seats: seq<SeatOf>, i: nat, k: nat)
    requires i < |ps| && k < |seats| && Distinct(SeatIds(seats)) && ps[i].userId == seats[k].userId
    ensures Seated(ps, seats)[i].teamSide == Some(seats[k].teamSide)
    ensures Seated(ps, seats)[i].assignedRole == Some(seats[k].role)
    decreases seats
  {
    assert SeatIds(seats)[1..] == SeatIds(seats[1..]);
    if k == 0 {
      forall j | 0 <= j < |seats[1..]| ensures seats[1..][j].userId != ps[i].userId {
        assert SeatIds(seats)[0] != SeatIds(seats)[j + 1];
      }
      SeatedElsewhere(SeatOne(ps, seats[0]), seats[1..], i);
    } else {
      SeatedEffect(SeatOne(ps, seats[0]), seats[1..], i, k - 1);
    }
  }

  lemma {:induction false} SeatedElsewhere(ps: seq<Participant>, seats: seq<SeatOf>, i: nat)
    requires i < |ps| && forall j :: 0 <= j < |seats| ==> seats[j].userId != ps[i].userId
    ensures Seated(ps, seats)[i] == ps[i]
    decreases seats
  {
    if seats == [] {
    } else {
      SeatedElsewhere(SeatOne(ps, seats[0]), seats[1..], i);
    }
  }

  // ---- sorting by lane ----

  ghost predicate RolesDiffer(ps: seq<Participant>) {
    forall i, j :: 0 <= i < j < |ps| ==> RoleIndex(ps[i].assignedRole) != RoleIndex(ps[j].assignedRole)
  }

  ghost predicate LaneOrder(ps: seq<Participant>) {
    forall i, j :: 0 <= i < j < |ps| ==> RoleIndex(ps[i].assignedRole) < RoleIndex(ps[j].assignedRole)
  }

  lemma {:induction false} InsertInLaneOrder(p: Participant, ps: seq<Participant>)
    requires LaneOrder(ps) && forall q :: q in ps ==> RoleIndex(q.assignedRole) != RoleIndex(p.assignedRole)
    ensures LaneOrder(InsertByRole(p, ps))
    ensures forall q :: q in InsertByRole(p, ps) <==> q == p || q in ps
  {
    if ps != [] && RoleIndex(p.assignedRole) > RoleIndex(ps[0].assignedRole) {
      InsertInLaneOrder(p, ps[1..]);
      var rest := InsertByRole(p, ps[1..]);
      forall j | 0 <= j < |rest| ensures RoleIndex(ps[0].assignedRole) < RoleIndex(rest[j].assignedRole) {
        assert rest[j] in rest;
      }
    }
  }

  lemma {:induction false} ByRoleSorts(ps: seq<Participant>)
    requires RolesDiffer(ps)
    ensures LaneOrder(ByRole(ps))
    ensures forall q :: q in ByRole(ps) <==> q in ps
  {
    if ps == [] {
    } else {
      ByRoleSorts(ps[1..]);
      InsertInLaneOrder(ps[0], ByRole(ps[1..]));
    }
  }

  lemma SomeMember(ps: seq<Participant>)
    requires ps != []
    ensures exists p :: p in ps
  {
    assert ps[0] in ps;
  }

  lemma {:induction false} LaneOrderDetermined(ps: seq<Participant>, qs: seq<Participant>)
    requires LaneOrder(ps) && LaneOrder(qs) && forall p :: p in ps <==> p in qs
    ensures ps == qs
  {
    if ps == [] {
      if qs != [] {
        SomeMember(qs);
        assert false;
      }
    } else {
      assert ps[0] in qs && qs != [] && qs[0] in ps;
      assert ps[0] == qs[0];
      forall p ensures p in ps[1..] <==> p in qs[1..] {
        assert p in ps[1..] <==> p in ps && p != ps[0];
        assert p in qs[1..] <==> p in qs && p != qs[0];
      }
      LaneOrderDetermined(ps[1..], qs[1..]);
    }
  }

  lemma {:induction false} SeatedOnADiffer(ps: seq<Participant>)
    requires forall i, j :: 0 <= i < j < |ps| && ps[i].teamSide == ps[j].teamSide == Some(A) ==>
      RoleIndex(ps[i].assignedRole) != RoleIndex(ps[j].assignedRole)
    ensures RolesDiffer(SeatedOnA(ps))
  {
    if ps == [] {
    } else {
      SeatedOnADiffer(ps[1..]);
      var rest := SeatedOnA(ps[1..]);
      forall j | 0 <= j < |rest| && ps[0].teamSide == Some(A)
        ensures RoleIndex(ps[0].assignedRole) != RoleIndex(rest[j].assignedRole)
      {
        assert rest[j] in rest;
        var i :| 0 <= i < |ps[1..]| && ps[1..][i] == rest[j];
        assert ps[i + 1] == rest[j];
      }
    }
  }

  // ---- the key is read back ----

  lemma {:induction false} KeyOfNames(a: seq<Seat>, b: seq<Seat>)
    requires |a| == |b| && forall k :: 0 <= k < |a| ==> a[k].userId == b[k].userId && a[k].role == b[k].role
    ensures CombinationKey(a) == CombinationKey(b)
  {
    if |a| > 1 {
      KeyOfNames(a[1..], b[1..]);
    }
  }

  /** The roster after seating: f names the roster index on each lane of side A, and nobody else is on it. */
  ghost predicate SideAIs(roster: seq<Participant>, f: seq<nat>) {
    && |f| == 5 && (forall k :: 0 <= k < 5 ==> f[k] < |roster|)
    && (forall k :: 0 <= k < 5 ==> roster[f[k]].teamSide == Some(A) && roster[f[k]].assignedRole == Some(LANES[k]))
    && (forall i :: 0 <= i < |roster| && roster[i].teamSide == Some(A) ==> i in f)
  }

  function Picked(roster: seq<Participant>, f: seq<nat>): (r: seq<Participant>)
    requires forall k :: 0 <= k < |f| ==> f[k] < |roster|
  {
    seq(|f|, (k: nat) requires k < |f| => roster[f[k]])
  }

  lemma SideADiffers(roster: seq<Participant>, f: seq<nat>)
    requires SideAIs(roster, f)
    ensures RolesDiffer(SeatedOnA(roster))
  {
    forall i, j | 0 <= i < j < |roster| && roster[i].teamSide == roster[j].teamSide == Some(A)
      ensures RoleIndex(roster[i].assignedRole) != RoleIndex(roster[j].assignedRole)
    {
      var k :| 0 <= k < 5 && f[k] == i;
      var l :| 0 <= l < 5 && f[l] == j;
      LaneIndexInjective(LANES[k]);
    }
    SeatedOnADiffer(roster);
  }

  lemma PickedInLaneOrder(roster: seq<Participant>, f: seq<nat>)
    requires SideAIs(roster, f)
    ensures LaneOrder(Picked(roster, f))
  {
    forall k | 0 <= k < 5 ensures RoleIndex(Picked(roster, f)[k].assignedRole) == k {
      LaneIndexInjective(LANES[k]);
    }
  }

  lemma PickedAreSideA(roster: seq<Participant>, f: seq<nat>, p: Participant)
    requires SideAIs(roster, f)
    ensures p in SeatedOnA(roster) <==> p in Picked(roster, f)
  {
    if p in SeatedOnA(roster) {
      var i :| 0 <= i < |roster| && roster[i] == p;
      var k :| 0 <= k < 5 && f[k] == i;
      assert Picked(roster, f)[k] == p;
    }
  }

  lemma SideAInLaneOrder(roster: seq<Participant>, f: seq<nat>)
    requires SideAIs(roster, f)
    ensures ByRole(SeatedOnA(roster)) == Picked(roster, f)
  {
    SideADiffers(roster, f);
    ByRoleSorts(SeatedOnA(roster));
    PickedInLaneOrder(roster, f);
    forall p ensures p in SeatedOnA(roster) <==> p in Picked(roster, f) {
      PickedAreSideA(roster, f, p);
    }
    LaneOrderDetermined(ByRole(SeatedOnA(roster)), Picked(roster, f));
  }

  /** The roster lists the balanced players. */
  ghost predicate SamePlayers(roster: seq<Participant>, players: seq<Player>) {
    |roster| == |players| && forall i :: 0 <= i < |roster| ==> roster[i].userId == players[i].userId
  }

  lemma LineupsApart(players: seq<Player>, s: set<nat>, f: seq<nat>, g: seq<nat>)
    requires Lineup(players, s, f) && Lineup(players, Mirrored(s, |players|), g)
    ensures Distinct(f + g) && forall i :: 0 <= i < 10 ==> (f + g)[i] < |players|
  {
    var e := f + g;
    forall i, j | 0 <= i < j < 10 ensures e[i] != e[j] {
      if i < 5 <= j {
        assert e[i] in Elements(f) && e[j] in Elements(g);
      }
    }
  }

  lemma SeatIdAt(players: seq<Player>, c: Candidate, f: seq<nat>, g: seq<nat>, i: nat)
    requires SeatedAs(players, f, c.split.teamA) && SeatedAs(players, g, c.split.teamB) && i < 10
    ensures |SeatIds(SeatsFor(c))| == 10 && (f + g)[i] < |players|
    ensures SeatIds(SeatsFor(c))[i] == players[(f + g)[i]].userId
  {
  }

  lemma SeatIdsDistinct(players: seq<Player>, c: Candidate, s: set<nat>, f: seq<nat>, g: seq<nat>)
    requires DistinctUsers(players) && Lineup(players, s, f) && SeatedAs(players, f, c.split.teamA)
    requires Lineup(players, Mirrored(s, |players|), g) && SeatedAs(players, g, c.split.teamB)
    ensures Distinct(SeatIds(SeatsFor(c)))
  {
    LineupsApart(players, s, f, g);
    forall i: nat | i < 10 ensures SeatIds(SeatsFor(c))[i] == players[(f + g)[i]].userId {
      SeatIdAt(players, c, f, g, i);
    }
  }

  lemma SeatingShows(roster: seq<Participant>, players: seq<Player>, c: Candidate, s: set<nat>, f: seq<nat>,
                     g: seq<nat>)
    requires SamePlayers(roster, players) && DistinctUsers(players)
    requires Lineup(players, s, f) && SeatedAs(players, f, c.split.teamA)
    requires Lineup(players, Mirrored(s, |players|), g) && SeatedAs(players, g, c.split.teamB)
    ensures SideAIs(Seated(roster, SeatsFor(c)), f)
  {
    var seats := SeatsFor(c);
    var after := Seated(roster, seats);
    SeatIdsDistinct(players, c, s, f, g);
    forall k: nat | k < 5
      ensures after[f[k]].teamSide == Some(A) && after[f[k]].assignedRole == Some(LANES[k])
      ensures after[g[k]].teamSide == Some(B)
    {
      SeatedEffect(roster, seats, f[k], k);
      SeatedEffect(roster, seats, g[k], k + 5);
    }
    forall i: nat | i < |roster| ensures i in f || after[i].teamSide == Some(B) {
      if i !in Elements(f) {
        assert i in Elements(g);
        var k: nat :| k < 5 && g[k] == i;
        assert after[g[k]].teamSide == Some(B);
      }
    }
  }

  lemma SeatsAreKnown(roster: seq<Participant>, players: seq<Player>, c: Candidate, f: seq<nat>, g: seq<nat>)
    requires SamePlayers(roster, players) && SeatedAs(players, f, c.split.teamA) && SeatedAs(players, g, c.split.teamB)
    ensures KnownSeats(roster, SeatsFor(c))
  {
    forall seat | seat in SeatsFor(c) ensures seat.userId in Ids(roster) {
      var i :| 0 <= i < 10 && SeatsFor(c)[i] == seat;
      var e := f + g;
      assert Ids(roster)[e[i]] == seat.userId;
    }
  }

  lemma KeyReadsBack(after: seq<Participant>, players: seq<Player>, f: seq<nat>, seats: seq<Seat>)
    requires SamePlayers(after, players) && SideAIs(after, f) && SeatedAs(players, f, seats)
    ensures RosterKey(after) == Some(CombinationKey(seats))
  {
    SideAInLaneOrder(after, f);
    KeyOfNames(AsSeats(Picked(after, f)), seats);
  }

  lemma KeyIsOfTeamA(players: seq<Player>, ctx: Context, q: Request, c: Candidate)
    requires |players| == 2 * TEAM_SIZE && c in Present(PicksOf(players, ctx, q))
    ensures c.combinationKey == CombinationKey(c.split.teamA)
  {
    CandidatesComeFromSplits(players, ctx, q, c);
  }

  /** Seating a generated candidate and reading the key back from the roster returns the candidate's key. */
  lemma SeatedKeyReadsBack(roster: seq<Participant>, players: seq<Player>, ctx: Context, q: Request, c: Candidate)
    requires |players| == 2 * TEAM_SIZE && SamePlayers(roster, players) && DistinctUsers(players)
    requires c in Present(PicksOf(players, ctx, q))
    ensures KnownSeats(roster, SeatsFor(c))
    ensures RosterKey(Seated(roster, SeatsFor(c))) == Some(c.combinationKey)
  {
    var s, f, g := CandidateSeatsEveryone(players, ctx, q, c);
    SeatingShows(roster, players, c, s, f, g);
    KeyReadsBack(Seated(roster, SeatsFor(c)), players, f, c.split.teamA);
    KeyIsOfTeamA(players, ctx, q, c);
    SeatsAreKnown(roster, players, c, f, g);
  }

  lemma {:induction false} FoundByNo(cs: seq<Candidate>, no: Option<nat>)
    ensures var c := FindByNo(cs, no); if c.Some? then c.value in cs && Some(c.value.candidateNo) == no
                                       else forall x :: x in cs ==> Some(x.candidateNo) != no
  {
    if cs == [] {
    } else {
      FoundByNo(cs[1..], no);
    }
  }

  /** Right after assigning a candidate both ways of reading the key agree, so a rematch avoids exactly the
      combination that was seated. */
  lemma AssignedKeyIsSelected(l: Lobby, players: seq<Player>, ctx: Context, q: Request, no: nat)
    requires |players| == 2 * TEAM_SIZE && SamePlayers(l.roster, players) && DistinctUsers(players)
    requires l.candidates == Present(PicksOf(players, ctx, q))
    ensures Assign(l, no).None? <==> forall c :: c in l.candidates ==> c.candidateNo != no
    ensures Assign(l, no).Some? ==>
      var after := Assign(l, no).value;
      SelectedKey(after).Some? && SelectedKey(after) == RosterKey(after.roster)
  {
    FoundByNo(l.candidates, Some(no));
    var c := FindByNo(l.candidates, Some(no));
    if c.Some? {
      SeatedKeyReadsBack(l.roster, players, ctx, q, c.value);
    }
  }

  lemma NumberFixesMode(players: seq<Player>, ctx: Context, q: Request, c: Candidate)
    requires |players| == 2 * TEAM_SIZE && c in Present(PicksOf(players, ctx, q))
    ensures 1 <= c.candidateNo <= 3 && c.mode == MODES[c.candidateNo - 1]
  {
    CandidatesComeFromSplits(players, ctx, q, c);
  }

  /** A candidate of the same number after a reroll is a different combination. */
  lemma SameNumberNewKey(players: seq<Player>, ctx: Context, q: Request, c: Candidate, previous: seq<Candidate>,
                         later: seq<Player>, laterCtx: Context, o: RerollOptions, d: Candidate)
    requires |players| == |later| == 2 * TEAM_SIZE && previous == Present(PicksOf(players, ctx, q)) && c in previous
    requires d in Present(PicksOf(later, laterCtx, RerollRequest(previous, o))) && d.candidateNo == c.candidateNo
    ensures d.combinationKey != c.combinationKey
  {
    NumberFixesMode(players, ctx, q, c);
    NumberFixesMode(later, laterCtx, RerollRequest(previous, o), d);
    AnswersAreStored(players, ctx, q);
    RerollNeverRepeats(later, laterCtx, previous, o, d, c);
  }

  /** What a reroll stores: a new answer replaces the candidates, an empty one is an error that keeps them, and
      neither touches the selected number. */
  function Rerolled(l: Lobby, answer: seq<Candidate>): (r: Lobby) {
    if answer == [] then l else l.(candidates := answer)
  }

  /** Whatever changed in the lobby and whatever the reroll excludes, the rematch still avoids the seated
      combination exactly when the new answer has no candidate of the selected number. */
  lemma RerollForgetsSeating(l: Lobby, players: seq<Player>, ctx: Context, q: Request, no: nat, seated: Lobby,
                             later: seq<Player>, laterCtx: Context, o: RerollOptions, answer: seq<Candidate>)
    requires |players| == |later| == 2 * TEAM_SIZE && SamePlayers(l.roster, players) && DistinctUsers(players)
    requires l.candidates == Present(PicksOf(players, ctx, q)) && Assign(l, no) == Some(seated)
    requires answer == Present(PicksOf(later, laterCtx, RerollRequest(l.candidates, o)))
    ensures SelectedKey(Rerolled(seated, answer)) == RosterKey(seated.roster) <==>
      forall d :: d in answer ==> d.candidateNo != no
  {
    FoundByNo(l.candidates, Some(no));
    var c := FindByNo(l.candidates, Some(no)).value;
    SeatedKeyReadsBack(l.roster, players, ctx, q, c);
    FoundByNo(answer, Some(no));
    var d := FindByNo(answer, Some(no));
    if d.Some? {
      SameNumberNewKey(players, ctx, q, c, l.candidates, later, laterCtx, o, d.value);
    }
  }

  /** In a lobby without locks an ordinary reroll always has a candidate of that number. */
  lemma UnlockedRerollForgets(l: Lobby, players: seq<Player>, ctx: Context, q: Request, no: nat, seated: Lobby,
                              laterCtx: Context, nonce: Option<string>)
    requires |players| == 2 * TEAM_SIZE && SamePlayers(l.roster, players) && DistinctUsers(players)
    requires NoSideLocks(players) && NoRoleLocks(players) && PlainIds(players)
    requires l.candidates == Present(PicksOf(players, ctx, q)) && Assign(l, no) == Some(seated)
    ensures var request := RerollRequest(l.candidates, RerollOptions(true, [], [], nonce));
      SelectedKey(Rerolled(seated, Present(PicksOf(players, laterCtx, request)))) != RosterKey(seated.roster)
  {
    var o := RerollOptions(true, [], [], nonce);
    var answer := Present(PicksOf(players, laterCtx, RerollRequest(l.candidates, o)));
    FoundByNo(l.candidates, Some(no));
    NumberFixesMode(players, ctx, q, FindByNo(l.candidates, Some(no)).value);
    AnswersAreStored(players, ctx, q);
    RerollIsNew(players, laterCtx, l.candidates, nonce);
    var d := HasNumber(players, laterCtx, RerollRequest(l.candidates, o), no);
    RerollForgetsSeating(l, players, ctx, q, no, seated, players, laterCtx, o, answer);
  }

  /** An answer of three has a candidate of every number. */
  lemma HasNumber(players: seq<Player>, ctx: Context, q: Request, no: nat) returns (d: Candidate)
    requires |players| == 2 * TEAM_SIZE && 1 <= no <= 3 && |Present(PicksOf(players, ctx, q))| == 3
    ensures d in Present(PicksOf(players, ctx, q)) && d.candidateNo == no
  {
    var ps := PicksOf(players, ctx, q);
    AllPresent(ps);
    d := ps[no - 1].value;
    PresentMembers(ps, d);
    PicksAreGood(SplitsOf(players, ctx), q.excludedIds, Elements(q.excludedKeys), q.seed, no - 1);
    OffersMembers(SplitsOf(players, ctx), MODES[no - 1], no, q.excludedIds, d);
  }

  lemma {:induction false} AllPresent(ps: seq<Option<Candidate>>)
    requires |Present(ps)| == |ps|
    ensures forall p :: p in ps ==> p.Some?
  {
    if ps == [] {
    } else {
      PresentAtMost(ps[1..]);
      AllPresent(ps[1..]);
    }
  }
}
