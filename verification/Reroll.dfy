/** Asking again: a reroll excludes what the previous answer offered. */
module Reroll {
  import opened Balancer
  import opened BalancerOptimality
  import opened CandidateKeys
  import opened Domain
  import opened Prelude
  import opened RoleSearch
  import opened TeamMetrics

  /** excludePrevious is true unless the request says otherwise. */
  datatype RerollOptions = RerollOptions(
    excludePrevious: bool, excludedIds: seq<string>, excludedKeys: seq<string>, nonce: Option<string>)

  function IdsOf(cs: seq<Candidate>): (r: seq<string>) {
    seq(|cs|, (i: nat) requires i < |cs| => cs[i].candidateId)
  }

  function KeysOf(cs: seq<Candidate>): (r: seq<string>) {
    seq(|cs|, (i: nat) requires i < |cs| => cs[i].combinationKey)
  }

  /** The exclusions of a reroll, from the answer stored with the match. */
  function RerollRequest(previous: seq<Candidate>, o: RerollOptions): (q: Request) {
    Request(IdsOf(previous) + o.excludedIds,
            (if o.excludePrevious then KeysOf(previous) else []) + o.excludedKeys,
            o.nonce)
  }

  /** Ids carry mode and key, as every generated candidate's does. */
  ghost predicate Stored(cs: seq<Candidate>) {
    |cs| <= 3 && forall c :: c in cs ==> c.candidateId == ModeName(c.mode) + ":" + c.combinationKey
  }

  lemma IdNamesModeAndKey(m: BalanceMode, key: string, n: BalanceMode, other: string)
    ensures ModeName(m) + ":" + key == ModeName(n) + ":" + other <==> m == n && key == other
  {
    if ModeName(m) + ":" + key == ModeName(n) + ":" + other {
      SplitAtSeparator(':', ModeName(m), key, ModeName(n), other);
    }
  }

  /** A reroll excludes what the previous answer offered and the request names, and breaks ties by its nonce. */
  lemma ExcludesPrevious(previous: seq<Candidate>, o: RerollOptions)
    ensures RerollRequest(previous, o).seed == o.nonce
    ensures forall id :: id in RerollRequest(previous, o).excludedIds <==>
      id in o.excludedIds || exists p :: p in previous && p.candidateId == id
    ensures forall key :: key in RerollRequest(previous, o).excludedKeys <==>
      key in o.excludedKeys || (o.excludePrevious && exists p :: p in previous && p.combinationKey == key)
  {
    forall p | p in previous
      ensures p.candidateId in IdsOf(previous) && p.combinationKey in KeysOf(previous)
    {
      var i :| 0 <= i < |previous| && previous[i] == p;
      assert IdsOf(previous)[i] == p.candidateId && KeysOf(previous)[i] == p.combinationKey;
    }
  }

  /** What a match stores after generating candidates. */
  lemma AnswersAreStored(players: seq<Player>, ctx: Context, q: Request)
    requires |players| == 2 * TEAM_SIZE
    ensures Stored(Present(PicksOf(players, ctx, q)))
  {
    PresentAtMost(PicksOf(players, ctx, q));
    forall c | c in Present(PicksOf(players, ctx, q))
      ensures c.candidateId == ModeName(c.mode) + ":" + c.combinationKey {
      CandidatesComeFromSplits(players, ctx, q, c);
    }
  }

  lemma {:induction false} PresentAtMost(ps: seq<Option<Candidate>>)
    ensures |Present(ps)| <= |ps|
  {
    if ps == [] {
    } else {
      PresentAtMost(ps[1..]);
    }
  }

  /** However the lobby changed in between, no mode is offered the combination it was offered before. */
  lemma RerollNeverRepeats(players: seq<Player>, ctx: Context, previous: seq<Candidate>, o: RerollOptions,
                           c: Candidate, p: Candidate)
    requires |players| == 2 * TEAM_SIZE && Stored(previous) && p in previous
    requires c in Present(PicksOf(players, ctx, RerollRequest(previous, o)))
    ensures c.mode == p.mode ==> c.combinationKey != p.combinationKey
  {
    var q := RerollRequest(previous, o);
    ExcludesPrevious(previous, o);
    CandidatesComeFromSplits(players, ctx, q, c);
    AnswersAreStored(players, ctx, q);
    IdNamesModeAndKey(c.mode, c.combinationKey, p.mode, p.combinationKey);
  }

  // ---- there is always something new to offer ----

  /** Without locks every half split can be evaluated. */
  lemma UnlockedEvaluates(players: seq<Player>, s: set<nat>, ctx: Context)
    requires |players| == 2 * TEAM_SIZE && NoSideLocks(players) && NoRoleLocks(players) && HalfSplit(s, |players|)
    ensures SideOf(players, s, ctx).Some?
  {
    NoLocksRespect(players, s);
    RoleUnlockedEvaluates(players, s, ctx);
  }

  /** One of six half splits: players 0 to 3 with x, for x from 4 to 9. */
  ghost function WithFifth(x: nat): set<nat> {
    {0, 1, 2, 3, x}
  }

  lemma WithFifthIsHalf(x: nat)
    requires 4 <= x < 10
    ensures HalfSplit(WithFifth(x), 10) && 0 in WithFifth(x)
    ensures forall y: nat :: 4 <= y < 10 && WithFifth(y) == WithFifth(x) ==> y == x
  {
    assert |{0, 1, 2, 3, x}| == 5;
    forall y: nat | 4 <= y < 10 && WithFifth(y) == WithFifth(x) ensures y == x {
      assert x in WithFifth(y);
    }
  }

  ghost function FifthKey(players: seq<Player>, ctx: Context, x: nat): string {
    if |players| == 2 * TEAM_SIZE && SideOf(players, WithFifth(x), ctx).Some?
    then KeyOfSplit(players, WithFifth(x), ctx) else ""
  }

  lemma FifthKeysDiffer(players: seq<Player>, ctx: Context, x: nat, y: nat)
    requires |players| == 2 * TEAM_SIZE && NoSideLocks(players) && NoRoleLocks(players)
    requires DistinctUsers(players) && PlainIds(players)
    requires 4 <= x < 10 && 4 <= y < 10 && x != y
    ensures FifthKey(players, ctx, x) != FifthKey(players, ctx, y)
  {
    WithFifthIsHalf(x);
    WithFifthIsHalf(y);
    UnlockedEvaluates(players, WithFifth(x), ctx);
    UnlockedEvaluates(players, WithFifth(y), ctx);
    SplitsHaveDistinctKeys(players, WithFifth(x), WithFifth(y), ctx);
  }

  /** An injection hits few members of a small set. */
  lemma {:induction false} ManyOutside(xs: set<nat>, f: nat -> string, taken: set<string>) returns (free: set<nat>)
    requires forall a, b :: a in xs && b in xs && a != b ==> f(a) != f(b)
    ensures free <= xs && |free| >= |xs| - |taken|
    ensures forall a :: a in free ==> f(a) !in taken
    decreases |xs|
  {
    if xs == {} {
      free := {};
    } else {
      var a :| a in xs;
      if f(a) in taken {
        free := ManyOutside(xs - {a}, f, taken - {f(a)});
      } else {
        var rest := ManyOutside(xs - {a}, f, taken);
        free := rest + {a};
      }
    }
  }

  lemma ThreeMembers(xs: set<nat>) returns (x: nat, y: nat, z: nat)
    requires |xs| >= 3
    ensures x in xs && y in xs && z in xs && x != y && y != z && x != z
  {
    x :| x in xs;
    assert |xs - {x}| >= 2;
    y :| y in xs - {x};
    assert |xs - {x} - {y}| >= 1;
    z :| z in xs - {x} - {y};
  }

  lemma NewKeyNewId(previous: seq<Candidate>, o: RerollOptions, key: string, mode: BalanceMode)
    requires Stored(previous) && o.excludedIds == [] && key !in KeysOf(previous)
    ensures ModeName(mode) + ":" + key !in RerollRequest(previous, o).excludedIds
  {
    ExcludesPrevious(previous, o.(excludePrevious := true, excludedKeys := []));
    ExcludesPrevious(previous, o);
    forall p | p in previous ensures ModeName(mode) + ":" + key != p.candidateId {
      IdNamesModeAndKey(mode, key, p.mode, p.combinationKey);
      assert p.combinationKey in RerollRequest(previous, o.(excludePrevious := true, excludedKeys := [])).excludedKeys;
    }
  }

  lemma FifthUnexcluded(players: seq<Player>, ctx: Context, previous: seq<Candidate>, nonce: Option<string>, x: nat)
    requires |players| == 2 * TEAM_SIZE && NoSideLocks(players) && NoRoleLocks(players)
    requires Stored(previous) && 4 <= x < 10 && FifthKey(players, ctx, x) !in Elements(KeysOf(previous))
    ensures Unexcluded(players, WithFifth(x), ctx, RerollRequest(previous, RerollOptions(true, [], [], nonce)))
  {
    var o := RerollOptions(true, [], [], nonce);
    WithFifthIsHalf(x);
    UnlockedEvaluates(players, WithFifth(x), ctx);
    forall j: nat | j < 3
      ensures CandidateOf(SideOf(players, WithFifth(x), ctx).value, MODES[j], j + 1).candidateId
           !in RerollRequest(previous, o).excludedIds
    {
      NewKeyNewId(previous, o, KeyOfSplit(players, WithFifth(x), ctx), MODES[j]);
    }
  }

  lemma FreeFifths(players: seq<Player>, ctx: Context, keys: set<string>) returns (free: set<nat>)
    requires |players| == 2 * TEAM_SIZE && NoSideLocks(players) && NoRoleLocks(players)
    requires DistinctUsers(players) && PlainIds(players) && |keys| <= 3
    ensures |free| >= 3
    ensures forall x :: x in free ==> 4 <= x < 10 && FifthKey(players, ctx, x) !in keys
  {
    var xs := Below(10) - Below(4);
    RangeSize(4, 10);
    forall a, b | a in xs && b in xs && a != b ensures FifthKey(players, ctx, a) != FifthKey(players, ctx, b) {
      FifthKeysDiffer(players, ctx, a, b);
    }
    free := ManyOutside(xs, (n: nat) => FifthKey(players, ctx, n), keys);
  }

  lemma ThreeUnexcluded(players: seq<Player>, ctx: Context, previous: seq<Candidate>, nonce: Option<string>)
    returns (x: nat, y: nat, z: nat)
    requires |players| == 2 * TEAM_SIZE && NoSideLocks(players) && NoRoleLocks(players)
    requires DistinctUsers(players) && PlainIds(players) && Stored(previous)
    ensures var q := RerollRequest(previous, RerollOptions(true, [], [], nonce));
      && Unexcluded(players, WithFifth(x), ctx, q) && Unexcluded(players, WithFifth(y), ctx, q)
      && Unexcluded(players, WithFifth(z), ctx, q)
    ensures WithFifth(x) != WithFifth(y) && WithFifth(y) != WithFifth(z) && WithFifth(x) != WithFifth(z)
  {
    ElementsBound(KeysOf(previous));
    var free := FreeFifths(players, ctx, Elements(KeysOf(previous)));
    x, y, z := ThreeMembers(free);
    FifthUnexcluded(players, ctx, previous, nonce, x);
    FifthUnexcluded(players, ctx, previous, nonce, y);
    FifthUnexcluded(players, ctx, previous, nonce, z);
    WithFifthIsHalf(x);
    WithFifthIsHalf(y);
  }

  /** Without locks an ordinary reroll always answers with three different combinations, none of which the
      previous answer offered in any mode. */
  lemma RerollIsNew(players: seq<Player>, ctx: Context, previous: seq<Candidate>, nonce: Option<string>)
    requires |players| == 2 * TEAM_SIZE && NoSideLocks(players) && NoRoleLocks(players)
    requires DistinctUsers(players) && PlainIds(players) && Stored(previous)
    ensures PairwiseDifferent(Present(PicksOf(players, ctx,
                                              RerollRequest(previous, RerollOptions(true, [], [], nonce)))),
                              Elements(KeysOf(previous)))
  {
    var q := RerollRequest(previous, RerollOptions(true, [], [], nonce));
    assert q.excludedKeys == KeysOf(previous);
    var x, y, z := ThreeUnexcluded(players, ctx, previous, nonce);
    CandidatesDiffer(players, ctx, q, WithFifth(x), WithFifth(y), WithFifth(z));
  }

  /** A chain of answers: the first to some request, each later one to a reroll of the one before. The
      match context may differ from call to call. */
  ghost predicate RerollChain(players: seq<Player>, ctxs: seq<Context>, nonces: seq<Option<string>>,
                              answers: seq<seq<Candidate>>)
    requires |players| == 2 * TEAM_SIZE
  {
    && 0 < |answers| == |ctxs| == |nonces|
    && Stored(answers[0])
    && forall i :: 0 < i < |answers| ==>
         answers[i] == Present(PicksOf(players, ctxs[i],
                                       RerollRequest(answers[i - 1], RerollOptions(true, [], [], nonces[i]))))
  }

  /** Rerolling never runs dry: every answer of the chain is three different combinations, all absent from
      the answer before. */
  lemma RerollsNeverRunDry(players: seq<Player>, ctxs: seq<Context>, nonces: seq<Option<string>>,
                           answers: seq<seq<Candidate>>, i: nat)
    requires |players| == 2 * TEAM_SIZE && NoSideLocks(players) && NoRoleLocks(players)
    requires DistinctUsers(players) && PlainIds(players)
    requires RerollChain(players, ctxs, nonces, answers) && 0 < i < |answers|
    ensures PairwiseDifferent(answers[i], Elements(KeysOf(answers[i - 1])))
  {
    if i > 1 {
      AnswersAreStored(players, ctxs[i - 1], RerollRequest(answers[i - 2], RerollOptions(true, [], [], nonces[i - 1])));
    }
    RerollIsNew(players, ctxs[i], answers[i - 1], nonces[i]);
  }
}
