/** The backtracking enumeration of team splits. */
module Combinations {
  import opened Prelude

  ghost predicate Increasing(c: seq<nat>) {
    forall i, j :: 0 <= i < j < |c| ==> c[i] < c[j]
  }

  /** A strictly increasing sequence of k indices below n. */
  ghost predicate IsCombination(c: seq<nat>, n: nat, k: nat) {
    |c| == k && Increasing(c) && forall i :: 0 <= i < |c| ==> c[i] < n
  }

  lemma IncreasingDistinct(c: seq<nat>)
    requires Increasing(c)
    ensures Distinct(c)
  {
  }

  ghost predicate LexSorted(cs: seq<seq<nat>>) {
    forall i, j :: 0 <= i < j < |cs| ==> LexLess(cs[i], cs[j])
  }

  /** What the search still owes: every way to complete `current` with indices from `start` on. */
  function Completions(current: seq<nat>, start: nat, n: nat, k: nat): (r: seq<seq<nat>>)
    decreases n - start
  {
    if |current| == k then [current]
    else if start < n then
      Completions(current + [start], start + 1, n, k) + Completions(current, start + 1, n, k)
    else []
  }

  ghost predicate Completes(c: seq<nat>, current: seq<nat>, start: nat, n: nat, k: nat) {
    && |c| == k
    && |current| <= k
    && c[..|current|] == current
    && Increasing(c[|current|..])
    && forall i :: |current| <= i < |c| ==> start <= c[i] < n
  }

  lemma {:induction false} CompletionsComplete(current: seq<nat>, start: nat, n: nat, k: nat)
    requires |current| <= k
    ensures forall c :: c in Completions(current, start, n, k) <==> Completes(c, current, start, n, k)
    decreases n - start
  {
    if |current| == k {
      forall c: seq<nat>
        ensures c in Completions(current, start, n, k) <==> Completes(c, current, start, n, k)
      {
        if |c| == k {
          assert c == c[..|current|];
        }
      }
    } else if start < n {
      CompletionsComplete(current + [start], start + 1, n, k);
      CompletionsComplete(current, start + 1, n, k);
      forall c: seq<nat>
        ensures Completes(c, current, start, n, k) <==>
          Completes(c, current + [start], start + 1, n, k) || Completes(c, current, start + 1, n, k)
      {
        CompletesSplit(c, current, start, n, k);
      }
    } else {
      forall c: seq<nat>
        ensures !Completes(c, current, start, n, k)
      {
        if |c| == k {
          var next := c[|current|];
        }
      }
    }
  }

  lemma CompletesSplit(c: seq<nat>, current: seq<nat>, start: nat, n: nat, k: nat)
    requires |current| < k && start < n
    ensures Completes(c, current, start, n, k) <==>
      Completes(c, current + [start], start + 1, n, k) || Completes(c, current, start + 1, n, k)
  {
    var m := |current|;
    if Completes(c, current, start, n, k) {
      var t := c[m..];
      forall i | m < i < |c| ensures c[m] < c[i] {
        assert t[0] < t[i - m];
      }
      if c[m] == start {
        assert c[..m + 1] == current + [start];
        var u := c[m + 1..];
        forall i, j | 0 <= i < j < |u| ensures u[i] < u[j] {
          assert t[i + 1] < t[j + 1];
        }
      }
    }
    if Completes(c, current + [start], start + 1, n, k) {
      var u := c[m + 1..];
      assert c[..m + 1] == current + [start];
      assert c[..m] == c[..m + 1][..m] == current;
      assert c[m] == c[..m + 1][m] == start;
      var t := c[m..];
      forall i, j | 0 <= i < j < |t| ensures t[i] < t[j] {
        if i > 0 {
          assert u[i - 1] < u[j - 1];
        }
      }
    }
  }

  lemma {:induction false} CompletionsSorted(current: seq<nat>, start: nat, n: nat, k: nat)
    requires |current| <= k
    ensures LexSorted(Completions(current, start, n, k))
    decreases n - start
  {
    if |current| < k && start < n {
      var first := Completions(current + [start], start + 1, n, k);
      var rest := Completions(current, start + 1, n, k);
      CompletionsSorted(current + [start], start + 1, n, k);
      CompletionsSorted(current, start + 1, n, k);
      CompletionsComplete(current + [start], start + 1, n, k);
      CompletionsComplete(current, start + 1, n, k);
      forall a, b | a in first && b in rest ensures LexLess(a, b) {
        var m := |current|;
        assert a[..m] == a[..m + 1][..m] == current == b[..m];
        assert a[m] == a[..m + 1][m] == start < b[m];
        assert DifferFirstAt(a, b, m);
      }
      var all := first + rest;
      forall i, j | 0 <= i < j < |all| ensures LexLess(all[i], all[j]) {
        if i < |first| <= j {
          assert all[i] in first && all[j] in rest;
        }
      }
    }
  }

  /** The closure state of the enumeration. */
  class CombinationBuilder {
    const size: nat
    const choose: nat
    var result: seq<seq<nat>>
    var current: seq<nat>

    constructor (size: nat, choose: nat)
      ensures this.size == size && this.choose == choose && result == [] && current == []
    {
      this.size := size;
      this.choose := choose;
      result, current := [], [];
    }

    method Backtrack(start: nat)
      requires |current| <= choose && start <= size
      modifies this
      ensures current == old(current)
      ensures result == old(result) + Completions(current, start, size, choose)
      decreases size - start
    {
      if |current| == choose {
        result := result + [current];
        return;
      }
      var index := start;
      while index < size
        invariant start <= index <= size
        invariant current == old(current)
        invariant result + Completions(current, index, size, choose)
               == old(result) + Completions(current, start, size, choose)
      {
        ghost var before := result;
        current := current + [index];
        Backtrack(index + 1);
        current := current[..|current| - 1];
        ConcatAssociative(before, Completions(current + [index], index + 1, size, choose),
                          Completions(current, index + 1, size, choose));
        index := index + 1;
      }
    }
  }

  /** Every strictly increasing k-sequence below n, exactly once, in lexicographic order. The two
      properties determine the result (SortedListIsUnique). */
  method BuildCombinations(n: nat, k: nat) returns (r: seq<seq<nat>>)
    ensures r == Completions([], 0, n, k)
    ensures forall c :: c in r <==> IsCombination(c, n, k)
    ensures LexSorted(r)
  {
    var builder := new CombinationBuilder(n, k);
    builder.Backtrack(0);
    r := builder.result;
    AllCombinations(n, k);
  }

  lemma AllCombinations(n: nat, k: nat)
    ensures forall c :: c in Completions([], 0, n, k) <==> IsCombination(c, n, k)
    ensures LexSorted(Completions([], 0, n, k))
  {
    CompletionsComplete([], 0, n, k);
    CompletionsSorted([], 0, n, k);
    forall c: seq<nat> ensures Completes(c, [], 0, n, k) <==> IsCombination(c, n, k) {
      assert c[0..] == c;
    }
  }

  lemma LexLessIrreflexive(a: seq<nat>)
    ensures !LexLess(a, a)
  {
  }

  /** Lexicographic sortedness rules out duplicates. */
  lemma LexSortedDistinct(cs: seq<seq<nat>>)
    requires LexSorted(cs)
    ensures Distinct(cs)
  {
    forall i, j | 0 <= i < j < |cs| ensures cs[i] != cs[j] {
      LexLessIrreflexive(cs[i]);
      assert LexLess(cs[i], cs[j]);
    }
  }

  /** The members of s from i up to n, in index order. */
  function Ascending(s: set<nat>, i: nat, n: nat): (r: seq<nat>)
    requires i <= n
    ensures forall x :: x in r <==> x in s && i <= x < n
    decreases n - i
  {
    if i == n then []
    else (if i in s then [i] else []) + Ascending(s, i + 1, n)
  }

  lemma {:induction false} AscendingIncreases(s: set<nat>, i: nat, n: nat)
    requires i <= n
    ensures Increasing(Ascending(s, i, n))
    decreases n - i
  {
    if i < n {
      AscendingIncreases(s, i + 1, n);
      var rest := Ascending(s, i + 1, n);
      forall j | 0 <= j < |rest| ensures i < rest[j] {
        assert rest[j] in rest;
      }
    }
  }

  lemma AscendingEnumerates(s: set<nat>, n: nat)
    requires s <= Below(n)
    ensures IsCombination(Ascending(s, 0, n), n, |s|) && Elements(Ascending(s, 0, n)) == s
  {
    var c := Ascending(s, 0, n);
    AscendingIncreases(s, 0, n);
    assert Elements(c) == s;
    DistinctSize(c);
    forall i | 0 <= i < |c| ensures c[i] < n {
      assert c[i] in c;
    }
  }

  /** Equal sets have the same greatest member, at the end of both sequences. */
  lemma SameLast(c: seq<nat>, d: seq<nat>)
    requires Increasing(c) && Increasing(d) && Elements(c) == Elements(d) && c != [] && d != []
    ensures c[|c| - 1] == d[|d| - 1]
    ensures Elements(c[..|c| - 1]) == Elements(d[..|d| - 1])
  {
    var m, n := |c| - 1, |d| - 1;
    assert c[m] in Elements(d) && d[n] in Elements(c);
    assert Elements(c[..m]) == Elements(c) - {c[m]};
    assert Elements(d[..n]) == Elements(d) - {d[n]};
  }

  lemma {:induction false} IncreasingDetermined(c: seq<nat>, d: seq<nat>)
    requires Increasing(c) && Increasing(d) && Elements(c) == Elements(d)
    ensures c == d
    decreases |c|
  {
    IncreasingDistinct(c);
    IncreasingDistinct(d);
    DistinctSize(c);
    DistinctSize(d);
    if c == [] {
    } else {
      var m := |c| - 1;
      SameLast(c, d);
      IncreasingDetermined(c[..m], d[..m]);
      assert c == c[..m] + [c[m]] && d == d[..m] + [d[m]];
    }
  }

  /** The splits the balancer looks at: combinations containing player 0. */
  function WithPlayerZero(cs: seq<seq<nat>>): (r: seq<seq<nat>>)
    ensures forall c :: c in r <==> c in cs && 0 in c
  {
    if cs == [] then []
    else (if 0 in cs[0] then [cs[0]] else []) + WithPlayerZero(cs[1..])
  }

  lemma {:induction false} WithPlayerZeroSorted(cs: seq<seq<nat>>)
    requires LexSorted(cs)
    ensures LexSorted(WithPlayerZero(cs))
  {
    if cs == [] {
    } else {
      WithPlayerZeroSorted(cs[1..]);
      var rest := WithPlayerZero(cs[1..]);
      forall j | 0 <= j < |rest| ensures LexLess(cs[0], rest[j]) {
        assert rest[j] in cs[1..];
      }
    }
  }

  /** A half with player 0 is listed at exactly one position. */
  lemma ListedOnce(n: nat, k: nat, side: set<nat>) returns (i: nat)
    requires side <= Below(n) && |side| == k && 0 in side
    ensures var splits := WithPlayerZero(Completions([], 0, n, k));
      && i < |splits| && Elements(splits[i]) == side
      && forall j :: 0 <= j < |splits| && Elements(splits[j]) == side ==> j == i
  {
    var splits := WithPlayerZero(Completions([], 0, n, k));
    var c := Ascending(side, 0, n);
    AscendingEnumerates(side, n);
    AllCombinations(n, k);
    assert 0 in Elements(c) && c in splits;
    i :| 0 <= i < |splits| && splits[i] == c;
    WithPlayerZeroSorted(Completions([], 0, n, k));
    LexSortedDistinct(splits);
    forall j | 0 <= j < |splits| && Elements(splits[j]) == side ensures j == i {
      assert splits[j] in splits;
      IncreasingDetermined(splits[j], c);
    }
  }

  lemma OtherHalf(k: nat, s: set<nat>)
    requires k > 0 && s <= Below(2 * k) && |s| == k
    ensures |Below(2 * k) - s| == k && (0 in Below(2 * k) - s <==> 0 !in s)
  {
    BelowSize(2 * k);
    assert Below(2 * k) == s + (Below(2 * k) - s);
    assert 0 in Below(2 * k);
  }

  /** Symmetry reduction: among the listed splits of 2k players, each unordered half/half split
      occurs exactly once, in the orientation that has player 0 on the listed side. */
  lemma EachHalfSplitOnce(k: nat, s: set<nat>) returns (i: nat)
    requires k > 0 && s <= Below(2 * k) && |s| == k
    ensures var splits := WithPlayerZero(Completions([], 0, 2 * k, k));
      && i < |splits|
      && Elements(splits[i]) == (if 0 in s then s else Below(2 * k) - s)
      && forall j :: 0 <= j < |splits| && (Elements(splits[j]) == s || Elements(splits[j]) == Below(2 * k) - s)
                     ==> j == i
  {
    var splits := WithPlayerZero(Completions([], 0, 2 * k, k));
    var side := if 0 in s then s else Below(2 * k) - s;
    OtherHalf(k, s);
    i := ListedOnce(2 * k, k, side);
    forall j | 0 <= j < |splits| ensures 0 in Elements(splits[j]) {
      assert splits[j] in splits;
    }
  }
}
