/** Branch-and-bound search for the cheapest assignment of roles to the players of one team. */
module RoleSearch {
  import opened Prelude

  datatype Cost = Finite(value: nat) | Infinite {
    predicate Less(other: Cost) {
      Finite? && (other.Finite? ==> value < other.value)
    }
  }

  /** Any table of non-negative or infinite costs, by player index and role index. */
  datatype Problem = Problem(roles: nat, players: nat, cost: (nat, nat) -> Cost)

  /** A cost from which a seat counts as off-role. */
  const OFF_ROLE_COST: nat := 12

  /** a[r] is the player on role r; distinct players, each at finite cost. */
  ghost predicate Feasible(t: Problem, a: seq<nat>) {
    && |a| <= t.roles
    && Distinct(a)
    && forall r: nat :: r < |a| ==> a[r] < t.players && t.cost(a[r], r).Finite?
  }

  ghost predicate Solves(t: Problem, a: seq<nat>) {
    |a| == t.roles && Feasible(t, a)
  }

  function Total(t: Problem, a: seq<nat>): (r: nat) {
    if a == [] then 0
    else
      var n := |a| - 1;
      var c := t.cost(a[n], n);
      Total(t, a[..n]) + if c.Finite? then c.value else 0
  }

  function OffRoles(t: Problem, a: seq<nat>): (r: nat) {
    if a == [] then 0
    else
      var n := |a| - 1;
      var c := t.cost(a[n], n);
      OffRoles(t, a[..n]) + if c.Finite? && c.value >= OFF_ROLE_COST then 1 else 0
  }

  /** The best assignment recorded so far. */
  datatype Best = Best(cost: Cost, assignment: seq<nat>, offRoles: nat)

  const NOTHING := Best(Infinite, [], 0)

  /** The search without its bound: try the players from `from` on for the next role, in index
      order, keeping a complete assignment only when it is strictly cheaper. */
  function Exhaustive(t: Problem, current: seq<nat>, from: nat, best: Best): (r: Best)
    decreases t.roles - |current|, t.players - from
  {
    if |current| >= t.roles then
      if Finite(Total(t, current)).Less(best.cost)
      then Best(Finite(Total(t, current)), current, OffRoles(t, current))
      else best
    else if from >= t.players then best
    else if from in current || t.cost(from, |current|).Infinite? then Exhaustive(t, current, from + 1, best)
    else Exhaustive(t, current, from + 1, Exhaustive(t, current + [from], 0, best))
  }

  /** Cutting a branch whose cost already reaches the best one loses nothing. */
  lemma {:induction false} PruningIsSound(t: Problem, current: seq<nat>, from: nat, best: Best)
    requires !Finite(Total(t, current)).Less(best.cost)
    ensures Exhaustive(t, current, from, best) == best
    decreases t.roles - |current|, t.players - from
  {
    if |current| < t.roles && from < t.players {
      PruningIsSound(t, current, from + 1, best);
      if from !in current && t.cost(from, |current|).Finite? {
        assert (current + [from])[..|current|] == current;
        PruningIsSound(t, current + [from], 0, best);
      }
    }
  }

  /** One turn of the loop over the players. */
  lemma ExhaustiveStep(t: Problem, current: seq<nat>, from: nat, best: Best)
    requires |current| < t.roles && from < t.players
    ensures Exhaustive(t, current, from, best) ==
      if from in current || t.cost(from, |current|).Infinite? then Exhaustive(t, current, from + 1, best)
      else Exhaustive(t, current, from + 1, Exhaustive(t, current + [from], 0, best))
  {
  }

  /** Pushing a player adds the cost and perhaps an off-role seat. */
  lemma PushedTotals(t: Problem, current: seq<nat>, p: nat)
    requires t.cost(p, |current|).Finite?
    ensures Total(t, current + [p]) == Total(t, current) + t.cost(p, |current|).value
    ensures OffRoles(t, current + [p])
         == OffRoles(t, current) + if t.cost(p, |current|).value >= OFF_ROLE_COST then 1 else 0
    ensures Elements(current + [p]) == Elements(current) + {p}
  {
    assert (current + [p])[..|current|] == current;
  }

  class RoleSearcher {
    const problem: Problem
    var bestCost: Cost
    var bestAssignment: seq<nat>
    var bestOffRoles: nat
    var used: set<nat>
    var current: seq<nat>

    constructor (problem: Problem)
      ensures this.problem == problem && Recorded() == NOTHING && current == [] && used == {}
    {
      this.problem := problem;
      bestCost, bestAssignment, bestOffRoles := Infinite, [], 0;
      used, current := {}, [];
    }

    ghost function Recorded(): Best
      reads this
    {
      Best(bestCost, bestAssignment, bestOffRoles)
    }

    /** One node of the search: the pruned subtree leaves exactly the record the full one would. */
    method Backtrack(roleIndex: nat, totalCost: nat, offRoles: nat)
      requires roleIndex == |current| <= problem.roles
      requires used == Elements(current)
      requires totalCost == Total(problem, current) && offRoles == OffRoles(problem, current)
      modifies this
      ensures current == old(current) && used == old(used)
      ensures Recorded() == Exhaustive(problem, current, 0, old(Recorded()))
      decreases problem.roles - roleIndex, 1
    {
      if roleIndex == problem.roles {
        if Finite(totalCost).Less(bestCost) {
          bestCost, bestAssignment, bestOffRoles := Finite(totalCost), current, offRoles;
        }
        return;
      }
      if !Finite(totalCost).Less(bestCost) {
        PruningIsSound(problem, current, 0, Recorded());
        return;
      }
      var index := 0;
      while index < problem.players
        invariant index <= problem.players
        invariant current == old(current) && used == old(used)
        invariant Exhaustive(problem, current, index, Recorded())
               == Exhaustive(problem, current, 0, old(Recorded()))
      {
        ExhaustiveStep(problem, current, index, Recorded());
        if index !in used && problem.cost(index, roleIndex).Finite? {
          TryPlayer(index, roleIndex, totalCost, offRoles);
        }
        index := index + 1;
      }
    }

    /** Push a player for the role, search on, and pop. */
    method TryPlayer(index: nat, roleIndex: nat, totalCost: nat, offRoles: nat)
      requires roleIndex == |current| < problem.roles && index !in used && problem.cost(index, roleIndex).Finite?
      requires used == Elements(current)
      requires totalCost == Total(problem, current) && offRoles == OffRoles(problem, current)
      modifies this
      ensures current == old(current) && used == old(used)
      ensures Recorded() == Exhaustive(problem, current + [index], 0, old(Recorded()))
      decreases problem.roles - roleIndex, 0
    {
      var cost := problem.cost(index, roleIndex).value;
      PushedTotals(problem, current, index);
      used := used + {index};
      current := current + [index];
      Backtrack(roleIndex + 1, totalCost + cost, offRoles + if cost >= OFF_ROLE_COST then 1 else 0);
      current := current[..|current| - 1];
      used := used - {index};
    }
  }

  /** A complete assignment that continues `current` with a player index of at least `from`. */
  ghost predicate Continues(t: Problem, current: seq<nat>, from: nat, a: seq<nat>) {
    && Solves(t, a)
    && |current| <= t.roles
    && a[..|current|] == current
    && (|current| < t.roles ==> a[|current|] >= from)
  }

  /** r is the cheapest of the continuations, and the lexicographically first of the cheapest. */
  ghost predicate FirstCheapest(t: Problem, current: seq<nat>, from: nat, r: Best) {
    && Continues(t, current, from, r.assignment)
    && r.cost == Finite(Total(t, r.assignment))
    && r.offRoles == OffRoles(t, r.assignment)
    && forall a: seq<nat> :: Continues(t, current, from, a) ==>
         && Total(t, r.assignment) <= Total(t, a)
         && (Total(t, r.assignment) == Total(t, a) ==> a == r.assignment || LexLess(r.assignment, a))
  }

  ghost predicate NoneCheaper(t: Problem, current: seq<nat>, from: nat, c: Cost) {
    forall a: seq<nat> :: Continues(t, current, from, a) ==> !Finite(Total(t, a)).Less(c)
  }

  lemma {:induction false} ExhaustiveFindsFirstCheapest(t: Problem, current: seq<nat>, from: nat, best: Best)
    requires |current| <= t.roles && Feasible(t, current)
    ensures Improves(t, current, from, best, Exhaustive(t, current, from, best))
    decreases t.roles - |current|, t.players - from
  {
    if |current| == t.roles {
      CompleteImproves(t, current, from, best);
    } else if from >= t.players {
      NoPlayerLeft(t, current, from, best);
    } else {
      ExhaustiveStep(t, current, from, best);
      if from in current || t.cost(from, |current|).Infinite? {
        ExhaustiveFindsFirstCheapest(t, current, from + 1, best);
        SkippedImproves(t, current, from, best, Exhaustive(t, current, from + 1, best));
      } else {
        ExhaustiveFindsFirstCheapest(t, current + [from], 0, best);
        var inner := Exhaustive(t, current + [from], 0, best);
        ExhaustiveFindsFirstCheapest(t, current, from + 1, inner);
        CombineBranches(t, current, from, best, inner, Exhaustive(t, current, from + 1, inner));
      }
    }
  }

  lemma CompleteImproves(t: Problem, current: seq<nat>, from: nat, best: Best)
    requires |current| == t.roles && Feasible(t, current)
    ensures Improves(t, current, from, best, Exhaustive(t, current, from, best))
  {
    forall a: seq<nat> | Continues(t, current, from, a) ensures a == current {
      assert a == a[..|current|];
    }
    assert current[..|current|] == current;
  }

  lemma NoPlayerLeft(t: Problem, current: seq<nat>, from: nat, best: Best)
    requires |current| < t.roles && from >= t.players
    ensures Improves(t, current, from, best, Exhaustive(t, current, from, best))
  {
    forall a: seq<nat> ensures !Continues(t, current, from, a) {
      if |a| == t.roles {
        var next := a[|current|];
      }
    }
  }

  lemma SkippedImproves(t: Problem, current: seq<nat>, from: nat, best: Best, r: Best)
    requires |current| < t.roles && from < t.players
    requires from in current || t.cost(from, |current|).Infinite?
    requires Improves(t, current, from + 1, best, r)
    ensures Improves(t, current, from, best, r)
  {
    StepOver(t, current, from);
  }

  ghost predicate Improves(t: Problem, current: seq<nat>, from: nat, best: Best, r: Best) {
    || (r == best && NoneCheaper(t, current, from, best.cost))
    || (r.cost.Less(best.cost) && FirstCheapest(t, current, from, r))
  }

  /** Searching the branch that takes `from` and then the branches after it searches them all. */
  lemma CombineBranches(t: Problem, current: seq<nat>, from: nat, best: Best, inner: Best, r: Best)
    requires |current| < t.roles && from < t.players
    requires Improves(t, current + [from], 0, best, inner) && Improves(t, current, from + 1, inner, r)
    ensures Improves(t, current, from, best, r)
  {
    StepOver(t, current, from);
    if FirstCheapest(t, current + [from], 0, inner) {
      TakenFirstWins(t, current, from, inner.assignment);
    }
  }

  lemma StepOver(t: Problem, current: seq<nat>, from: nat)
    requires |current| < t.roles && from < t.players
    ensures forall a: seq<nat> :: Continues(t, current, from, a) <==>
      Continues(t, current, from + 1, a) || Continues(t, current + [from], 0, a)
    ensures from in current || t.cost(from, |current|).Infinite? ==>
      forall a: seq<nat> :: !Continues(t, current + [from], 0, a)
  {
    var m := |current|;
    forall a: seq<nat>
      ensures Continues(t, current, from, a) <==>
        Continues(t, current, from + 1, a) || Continues(t, current + [from], 0, a)
      ensures Continues(t, current + [from], 0, a) ==> from !in current && t.cost(from, m).Finite?
    {
      if |a| == t.roles {
        if a[m] == from && a[..m] == current {
          assert a[..m + 1] == current + [from];
        }
        if a[..m + 1] == current + [from] {
          assert a[m] == a[..m + 1][m] == from;
          assert a[..m] == a[..m + 1][..m] == current;
          forall i | 0 <= i < m ensures a[i] == current[i] {
            assert a[i] == a[..m][i];
          }
        }
      }
    }
  }

  /** Among equal costs, taking the smaller player index for the next role comes first. */
  lemma TakenFirstWins(t: Problem, current: seq<nat>, from: nat, taken: seq<nat>)
    requires |current| < t.roles && Continues(t, current + [from], 0, taken)
    ensures forall a: seq<nat> :: Continues(t, current, from + 1, a) ==> LexLess(taken, a)
  {
    var m := |current|;
    assert taken[m] == taken[..m + 1][m] == from;
    assert taken[..m] == taken[..m + 1][..m] == current;
    forall a: seq<nat> | Continues(t, current, from + 1, a) ensures LexLess(taken, a) {
      assert DifferFirstAt(taken, a, m);
    }
  }

  datatype Solution = Solution(assignment: seq<nat>, cost: nat, offRoles: nat)

  /** The outcome of a whole search. */
  function Solve(t: Problem): (r: Option<Solution>) {
    var best := Exhaustive(t, [], 0, NOTHING);
    if best.cost.Infinite? || |best.assignment| != t.roles then None
    else Some(Solution(best.assignment, best.cost.value, best.offRoles))
  }

  method FindBestAssignment(t: Problem) returns (r: Option<Solution>)
    ensures r == Solve(t)
  {
    var searcher := new RoleSearcher(t);
    searcher.Backtrack(0, 0, 0);
    if searcher.bestCost.Infinite? || |searcher.bestAssignment| != t.roles {
      return None;
    }
    return Some(Solution(searcher.bestAssignment, searcher.bestCost.value, searcher.bestOffRoles));
  }

  /** The pruned search agrees with the definition of the optimum: it fails only when no assignment
      exists, and otherwise returns the lexicographically first of the cheapest ones. */
  lemma SolveIsOptimal(t: Problem)
    ensures Solve(t).None? <==> forall a: seq<nat> :: !Solves(t, a)
    ensures Solve(t).Some? ==>
      var s := Solve(t).value;
      && Solves(t, s.assignment)
      && s.cost == Total(t, s.assignment) && s.offRoles == OffRoles(t, s.assignment)
      && forall a: seq<nat> :: Solves(t, a) ==>
           && s.cost <= Total(t, a)
           && (s.cost == Total(t, a) ==> a == s.assignment || LexLess(s.assignment, a))
  {
    ExhaustiveFindsFirstCheapest(t, [], 0, NOTHING);
    forall a: seq<nat> ensures Solves(t, a) <==> Continues(t, [], 0, a) {
      assert |a| > 0 ==> a[0] >= 0;
      assert a[..0] == [];
    }
    var best := Exhaustive(t, [], 0, NOTHING);
    if best == NOTHING {
      forall a: seq<nat> ensures !Solves(t, a) {
        assert Finite(Total(t, a)).Less(Infinite);
      }
    }
  }

  // ---- when an assignment exists at all: role locks ----

  /** A square problem whose only infinite costs come from role locks. */
  ghost predicate Locked(t: Problem, lock: seq<Option<nat>>) {
    && t.players == t.roles == |lock|
    && forall p: nat, r: nat :: p < t.players && r < t.roles ==>
         (t.cost(p, r).Infinite? <==> lock[p].Some? && lock[p].value != r)
  }

  /** No two players hold the same lock, and every lock names one of the roles. */
  predicate LocksCompatible(lock: seq<Option<nat>>) {
    && (forall p | 0 <= p < |lock| :: lock[p].Some? ==> lock[p].value < |lock|)
    && (forall p, q | 0 <= p < q < |lock| :: lock[p].Some? && lock[q].Some? ==> lock[p] != lock[q])
  }

  /** A partial assignment that has already seated everyone locked to one of its roles. */
  ghost predicate SeatsLocks(t: Problem, lock: seq<Option<nat>>, a: seq<nat>)
    requires Locked(t, lock)
  {
    && Feasible(t, a)
    && forall p: nat :: p < |lock| && lock[p].Some? && lock[p].value < |a| ==> p in a
  }

  lemma RangeSize(m: nat, n: nat)
    requires m <= n
    ensures |Below(n) - Below(m)| == n - m
  {
    BelowSize(m);
    BelowSize(n);
    assert Below(n) == Below(m) + (Below(n) - Below(m));
  }

  lemma {:induction false} ImageSize(ps: set<nat>, f: nat -> nat) returns (image: set<nat>)
    requires forall p, q :: p in ps && q in ps && p != q ==> f(p) != f(q)
    ensures |image| == |ps|
    ensures forall x :: x in image ==> exists p :: p in ps && f(p) == x
    decreases |ps|
  {
    if ps == {} {
      image := {};
    } else {
      var p :| p in ps;
      var rest := ImageSize(ps - {p}, f);
      assert f(p) !in rest;
      image := rest + {f(p)};
    }
  }

  lemma Pigeonhole(ps: set<nat>, f: nat -> nat, m: nat, n: nat)
    requires m <= n && |ps| > n - m
    requires forall p :: p in ps ==> m <= f(p) < n
    ensures exists p, q :: p in ps && q in ps && p != q && f(p) == f(q)
  {
    if forall p, q :: p in ps && q in ps && p != q ==> f(p) != f(q) {
      var image := ImageSize(ps, f);
      RangeSize(m, n);
      SubsetSize(image, Below(n) - Below(m));
    }
  }

  function LockOf(lock: seq<Option<nat>>, p: nat): (r: nat) {
    if p < |lock| && lock[p].Some? then lock[p].value else 0
  }

  /** Counting: if every seatless player were locked to a later role, there would be too many. */
  lemma SomeoneIsFree(lock: seq<Option<nat>>, free: set<nat>, i: nat)
    requires LocksCompatible(lock) && i < |lock| && free <= Below(|lock|) && |free| == |lock| - i
    requires forall p :: p in free && lock[p].Some? ==> lock[p].value > i
    ensures exists p :: p in free && lock[p].None?
  {
    if forall p :: p in free ==> lock[p].Some? {
      var f := (p: nat) => LockOf(lock, p);
      forall p | p in free ensures i + 1 <= f(p) < |lock| {
        assert lock[p].Some?;
      }
      Pigeonhole(free, f, i + 1, |lock|);
    }
  }

  lemma FreeSize(t: Problem, a: seq<nat>)
    requires Feasible(t, a)
    ensures |Below(t.players) - Elements(a)| == t.players - |a|
  {
    BelowSize(t.players);
    DistinctSize(a);
    assert Elements(a) <= Below(t.players);
    assert Below(t.players) == Elements(a) + (Below(t.players) - Elements(a));
  }

  /** While roles remain, someone can take the next one. */
  lemma NextSeat(t: Problem, lock: seq<Option<nat>>, a: seq<nat>) returns (p: nat)
    requires Locked(t, lock) && LocksCompatible(lock) && SeatsLocks(t, lock, a) && |a| < t.roles
    ensures p < t.players && p !in a
    ensures lock[p] == Some(|a|) || (lock[p].None? && forall q: nat :: q < |lock| ==> lock[q] != Some(|a|))
  {
    var i := |a|;
    if q: nat :| q < |lock| && lock[q] == Some(i) {
      p := q;
      forall r: nat | r < |a| ensures a[r] != p {
        assert t.cost(a[r], r).Finite?;
      }
    } else {
      var free := Below(|lock|) - Elements(a);
      FreeSize(t, a);
      SomeoneIsFree(lock, free, i);
      p :| p in free && lock[p].None?;
    }
  }

  lemma SeatNext(t: Problem, lock: seq<Option<nat>>, a: seq<nat>, p: nat)
    requires Locked(t, lock) && LocksCompatible(lock) && SeatsLocks(t, lock, a) && |a| < t.roles
    requires p < t.players && p !in a
    requires lock[p] == Some(|a|) || (lock[p].None? && forall q: nat :: q < |lock| ==> lock[q] != Some(|a|))
    ensures SeatsLocks(t, lock, a + [p])
  {
    var b := a + [p];
    forall q: nat | q < |lock| && lock[q].Some? && lock[q].value < |b| ensures q in b {
      if lock[q].value == |a| {
        assert q == p;
        assert b[|a|] == p;
      } else {
        assert q in a;
      }
    }
  }

  lemma {:induction false} SeatEveryone(t: Problem, lock: seq<Option<nat>>, a: seq<nat>) returns (full: seq<nat>)
    requires Locked(t, lock) && LocksCompatible(lock) && SeatsLocks(t, lock, a)
    ensures Solves(t, full)
    decreases t.roles - |a|
  {
    if |a| == t.roles {
      full := a;
    } else {
      var p := NextSeat(t, lock, a);
      SeatNext(t, lock, a, p);
      full := SeatEveryone(t, lock, a + [p]);
    }
  }

  /** A full team is unassignable exactly when two players share a locked role or some locked role
      is not one of the team's roles. */
  lemma UnassignableExactly(t: Problem, lock: seq<Option<nat>>)
    requires Locked(t, lock)
    ensures Solve(t).None? <==> !LocksCompatible(lock)
  {
    SolveIsOptimal(t);
    if LocksCompatible(lock) {
      var full := SeatEveryone(t, lock, []);
    }
    forall a: seq<nat> | Solves(t, a) ensures LocksCompatible(lock) {
      EveryoneSeated(t, a);
      forall p: nat | p < |lock| && lock[p].Some?
        ensures lock[p].value < |lock| && a[lock[p].value] == p
      {
        assert p in Elements(a);
        var r: nat :| r < |a| && a[r] == p;
        assert t.cost(a[r], r).Finite?;
      }
    }
  }

  lemma EveryoneSeated(t: Problem, a: seq<nat>)
    requires Solves(t, a) && t.players == t.roles
    ensures Elements(a) == Below(t.players)
  {
    DistinctSize(a);
    BelowSize(t.players);
    assert Elements(a) <= Below(t.players);
    SubsetSize(Elements(a), Below(t.players));
  }
}
