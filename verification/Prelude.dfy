/** Vocabulary shared by the other modules: optional values, the order in which the
    backtracking searches visit sequences, counting lemmas for finite sets, and decimal rounding. */
module Prelude {

  datatype Option<+T> = None | Some(value: T)

  /** Lexicographic order on sequences neither of which is a prefix of the other. */
  ghost predicate LexLess(a: seq<nat>, b: seq<nat>) {
    exists i: nat :: DifferFirstAt(a, b, i) && a[i] < b[i]
  }

  ghost predicate DifferFirstAt(a: seq<nat>, b: seq<nat>, i: nat) {
    i < |a| && i < |b| && a[..i] == b[..i] && a[i] != b[i]
  }

  ghost predicate Distinct<T>(s: seq<T>) {
    forall i, j :: 0 <= i < j < |s| ==> s[i] != s[j]
  }

  function Elements<T>(s: seq<T>): (r: set<T>) {
    set x | x in s
  }

  /** The indices below n. */
  function Below(n: nat): (r: set<nat>)
    ensures forall i :: i in r <==> 0 <= i < n
  {
    if n == 0 then {} else Below(n - 1) + {n - 1}
  }

  lemma {:induction false} BelowSize(n: nat)
    ensures |Below(n)| == n
  {
    if n == 0 {
    } else {
      BelowSize(n - 1);
      assert n - 1 !in Below(n - 1);
      assert Below(n) == Below(n - 1) + {n - 1};
    }
  }

  /** The indices below n with a property. */
  ghost function Where(n: nat, holds: nat -> bool): set<nat> {
    set r: nat | r < n && holds(r)
  }

  lemma WhereGrows(n: nat, holds: nat -> bool)
    ensures |Where(n + 1, holds)| == |Where(n, holds)| + if holds(n) then 1 else 0
  {
    assert Where(n + 1, holds) == Where(n, holds) + if holds(n) then {n} else {};
  }

  lemma {:induction false} DistinctSize<T>(s: seq<T>)
    requires Distinct(s)
    ensures |Elements(s)| == |s|
  {
    if s == [] {
      assert Elements(s) == {};
    } else {
      var n := |s| - 1;
      DistinctSize(s[..n]);
      assert Elements(s) == Elements(s[..n]) + {s[n]};
    }
  }

  lemma {:induction false} ElementsBound<T>(s: seq<T>)
    ensures |Elements(s)| <= |s|
  {
    if s == [] {
      assert Elements(s) == {};
    } else {
      var n := |s| - 1;
      ElementsBound(s[..n]);
      assert Elements(s) == Elements(s[..n]) + {s[n]};
    }
  }

  lemma {:induction false} SubsetSize<T>(a: set<T>, b: set<T>)
    requires a <= b
    ensures |a| <= |b|
    ensures |a| == |b| ==> a == b
  {
    assert |b| == |a| + |b - a| by {
      assert b == a + (b - a);
    }
    if a != b {
      var x :| x in b - a;
      assert |b - a| > 0;
    }
  }

  lemma ConcatAssociative<T>(a: seq<T>, b: seq<T>, c: seq<T>)
    ensures a + b + c == a + (b + c)
  {
  }

  lemma AppendPresent<T>(done: seq<T>, x: Option<T>, rest: seq<T>)
    ensures done + ((if x.Some? then [x.value] else []) + rest) == (if x.Some? then done + [x.value] else done) + rest
  {
  }

  /** The position of the first x in s, or |s|. */
  function FirstIndex<T(==)>(s: seq<T>, x: T): (r: nat)
    ensures r <= |s|
  {
    if s == [] || s[0] == x then 0 else 1 + FirstIndex(s[1..], x)
  }

  lemma {:induction false} FirstIndexOfSeparator<T>(a: seq<T>, sep: T, b: seq<T>)
    requires sep !in a
    ensures FirstIndex(a + [sep] + b, sep) == |a|
  {
    if a == [] {
    } else {
      FirstIndexOfSeparator(a[1..], sep, b);
      assert (a + [sep] + b)[1..] == a[1..] + [sep] + b;
    }
  }

  /** A separator that does not occur in the first part marks where to cut. */
  lemma SplitAtSeparator<T>(sep: T, a: seq<T>, b: seq<T>, c: seq<T>, d: seq<T>)
    requires sep !in a && sep !in c && a + [sep] + b == c + [sep] + d
    ensures a == c && b == d
  {
    FirstIndexOfSeparator(a, sep, b);
    FirstIndexOfSeparator(c, sep, d);
    var s := a + [sep] + b;
    assert a == s[..|a|] && c == (c + [sep] + d)[..|c|];
    assert b == s[|a| + 1..] && d == (c + [sep] + d)[|c| + 1..];
  }

  /** The nearest integer, a tie going away from zero. */
  function Nearest(x: real): (r: int) {
    if x < 0.0 then -(0.5 - x).Floor else (x + 0.5).Floor
  }

  /** ECMAScript's Number(x.toFixed(4)): section 21.1.3.3 of ECMA-262 picks the larger n on |x|. */
  function ToFixed4(x: real): (r: real) {
    Nearest(x * 10000.0) as real / 10000.0
  }

  function Abs(x: real): (r: real) {
    if x < 0.0 then -x else x
  }
}
