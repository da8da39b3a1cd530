/**
 * Routes over the locations 0..n-1 and their lengths under a distance
 * matrix. A route built by one ant is closed: it starts and ends at the same
 * location and visits every location exactly once in between.
 */
module Tours {

  /** A dense matrix of reals, row by row (a numpy 2-D array). */
  type Matrix = seq<seq<real>>

  predicate IsSquare(m: Matrix, n: nat) {
    |m| == n && forall i :: 0 <= i < n ==> |m[i]| == n
  }

  /** Every entry is strictly positive. */
  predicate Positive(m: Matrix) {
    forall i, j :: 0 <= i < |m| && 0 <= j < |m[i]| ==> m[i][j] > 0.0
  }

  /** Every element of `s` is a location index below `n`. */
  predicate InRange(s: seq<nat>, n: nat) {
    forall k :: 0 <= k < |s| ==> s[k] < n
  }

  predicate Distinct(s: seq<nat>) {
    forall i, j :: 0 <= i < j < |s| ==> s[i] != s[j]
  }

  /** `s` lists the locations 0..n-1, each once. */
  predicate IsPermutation(s: seq<nat>, n: nat) {
    |s| == n && InRange(s, n) && Distinct(s)
  }

  /** A closed tour: n+1 entries, the last equal to the first, the first n a permutation. */
  predicate IsClosedTour(route: seq<nat>, n: nat) {
    |route| == n + 1 && InRange(route, n) && route[n] == route[0] && IsPermutation(route[..n], n)
  }

  /**
   * The locations below `n` that are not in `visited`, in increasing order
   * (the list comprehension over `range(n)` in the selection step).
   */
  function Unvisited(n: nat, visited: seq<nat>): (u: seq<nat>)
    ensures InRange(u, n)
    ensures forall v: nat :: v in u <==> v < n && v !in visited
    ensures forall i, j :: 0 <= i < j < |u| ==> u[i] < u[j]
  {
    if n == 0 then []
    else Unvisited(n - 1, visited) + (if n - 1 in visited then [] else [n - 1])
  }

  /**
   * Sum of the distances of consecutive pairs of `route`: the length of the
   * walk it describes, including the closing edge when the route is closed.
   */
  function PathLength(d: Matrix, route: seq<nat>): real
    requires IsSquare(d, |d|) && InRange(route, |d|)
  {
    if |route| < 2 then 0.0 else d[route[0]][route[1]] + PathLength(d, route[1..])
  }

  /** Appending a location adds exactly the one edge into it. */
  lemma {:induction false} PathLengthExtend(d: Matrix, route: seq<nat>, x: nat)
    requires IsSquare(d, |d|) && InRange(route, |d|) && x < |d| && |route| > 0
    ensures InRange(route + [x], |d|)
    ensures PathLength(d, route + [x]) == PathLength(d, route) + d[route[|route| - 1]][x]
  {
    if |route| > 1 {
      assert (route + [x])[1..] == route[1..] + [x];
      PathLengthExtend(d, route[1..], x);
    }
  }

  /** With positive distances, every route with at least one edge has positive length. */
  lemma {:induction false} PathLengthPositive(d: Matrix, route: seq<nat>)
    requires IsSquare(d, |d|) && Positive(d) && InRange(route, |d|) && |route| >= 2
    ensures PathLength(d, route) > 0.0
  {
    if |route| > 2 {
      PathLengthPositive(d, route[1..]);
    } else {
      assert PathLength(d, route[1..]) == 0.0;
    }
  }

  // Counting arguments: a distinct sequence has as many elements as entries.

  function Elements(s: seq<nat>): set<nat> {
    set x | x in s
  }

  function Below(n: nat): (b: set<nat>)
    ensures forall v: nat :: v in b <==> v < n
  {
    if n == 0 then {} else Below(n - 1) + {n - 1}
  }

  lemma {:induction false} DistinctElements(s: seq<nat>)
    requires Distinct(s)
    ensures |Elements(s)| == |s|
  {
    if |s| > 0 {
      var p := s[..|s| - 1];
      assert s == p + [s[|s| - 1]];
      assert Elements(s) == Elements(p) + {s[|s| - 1]};
      assert s[|s| - 1] !in Elements(p);
      DistinctElements(p);
    }
  }

  lemma {:induction false} BelowSize(n: nat)
    ensures |Below(n)| == n
  {
    if n > 0 {
      assert n - 1 !in Below(n - 1);
      BelowSize(n - 1);
    }
  }

  lemma SubsetSize(a: set<nat>, b: set<nat>)
    requires a <= b
    ensures |b - a| == |b| - |a|
    ensures |a| == |b| ==> a == b
  {
    assert b == a + (b - a);
    assert a * (b - a) == {};
    if |a| == |b| {
      assert |b - a| == 0;
      assert b - a == {};
    }
  }

  /** A permutation of 0..n-1 visits every location. */
  lemma PermutationCovers(s: seq<nat>, n: nat)
    requires IsPermutation(s, n)
    ensures forall v :: 0 <= v < n ==> v in s
  {
    DistinctElements(s);
    BelowSize(n);
    assert Elements(s) <= Below(n);
    SubsetSize(Elements(s), Below(n));
    forall v | 0 <= v < n ensures v in s {
      assert v in Below(n);
    }
  }

  /** A partial route of fewer than n distinct locations misses one of them. */
  lemma MissingLocation(s: seq<nat>, n: nat)
    requires InRange(s, n) && Distinct(s) && |s| < n
    ensures exists v :: 0 <= v < n && v !in s
  {
    DistinctElements(s);
    BelowSize(n);
    var common := Below(n) * Elements(s);
    SubsetSize(common, Elements(s));
    SubsetSize(common, Below(n));
    var missing := Below(n) - common;
    assert |missing| > 0;
    var v :| v in missing;
    assert v < n && v !in s;
  }
}
