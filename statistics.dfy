/**
 * The per-iteration convergence history: for each iteration the best length
 * found so far over all iterations, and the mean and maximum of that
 * iteration's route lengths.
 */
module Statistics {

  datatype IterationRecord = IterationRecord(
    iteration: nat,
    bestDistance: real,
    averageDistance: real,
    worstDistance: real)

  function Sum(xs: seq<real>): real {
    if |xs| == 0 then 0.0 else Sum(xs[..|xs| - 1]) + xs[|xs| - 1]
  }

  /** The arithmetic mean (numpy's mean). */
  function Mean(xs: seq<real>): real
    requires |xs| > 0
  {
    Sum(xs) / (|xs| as real)
  }

  /** The maximum (numpy's max). */
  function Largest(xs: seq<real>): (m: real)
    requires |xs| > 0
    ensures m in xs
    ensures forall k :: 0 <= k < |xs| ==> xs[k] <= m
  {
    if |xs| == 1 then xs[0]
    else
      var m := Largest(xs[..|xs| - 1]);
      if xs[|xs| - 1] > m then xs[|xs| - 1] else m
  }

  /**
   * The index a running best ends on when it starts at infinity and is
   * replaced only by a strictly smaller value: the first index of a minimum.
   */
  function BestIndex(xs: seq<real>): (i: nat)
    requires |xs| > 0
    ensures i < |xs|
    ensures forall k :: 0 <= k < |xs| ==> xs[i] <= xs[k]
    ensures forall k :: 0 <= k < i ==> xs[i] < xs[k]
  {
    if |xs| == 1 then 0
    else
      var i := BestIndex(xs[..|xs| - 1]);
      if xs[|xs| - 1] < xs[i] then |xs| - 1 else i
  }

  lemma {:induction false} SumBounds(xs: seq<real>, lo: real, hi: real)
    requires forall k :: 0 <= k < |xs| ==> lo <= xs[k] <= hi
    ensures (|xs| as real) * lo <= Sum(xs) <= (|xs| as real) * hi
  {
    if |xs| > 0 {
      SumBounds(xs[..|xs| - 1], lo, hi);
    }
  }

  lemma QuotientBetween(s: real, n: real, lo: real, hi: real)
    requires n > 0.0 && n * lo <= s <= n * hi
    ensures lo <= s / n <= hi
  {
    var m := s / n;
    assert s == n * m;
    assert n * (m - lo) >= 0.0;
    assert n * (hi - m) >= 0.0;
  }

  lemma MeanWithin(xs: seq<real>, lo: real, hi: real)
    requires |xs| > 0
    requires forall k :: 0 <= k < |xs| ==> lo <= xs[k] <= hi
    ensures lo <= Mean(xs) <= hi
  {
    SumBounds(xs, lo, hi);
    QuotientBetween(Sum(xs), |xs| as real, lo, hi);
  }

  /** The mean lies between the minimum and the maximum. */
  lemma MeanBetween(xs: seq<real>)
    requires |xs| > 0
    ensures xs[BestIndex(xs)] <= Mean(xs) <= Largest(xs)
  {
    MeanWithin(xs, xs[BestIndex(xs)], Largest(xs));
  }

  /** A positive total has a positive term. */
  lemma {:induction false} PositiveTerm(xs: seq<real>)
    requires Sum(xs) > 0.0
    ensures exists k :: 0 <= k < |xs| && xs[k] > 0.0
  {
    if xs[|xs| - 1] <= 0.0 {
      PositiveTerm(xs[..|xs| - 1]);
      var k :| 0 <= k < |xs| - 1 && xs[..|xs| - 1][k] > 0.0;
      assert xs[k] > 0.0;
    }
  }

  /** The concatenation of the batches, in order. */
  function Flatten<T>(batches: seq<seq<T>>): seq<T> {
    if |batches| == 0 then [] else Flatten(batches[..|batches| - 1]) + batches[|batches| - 1]
  }

  /** Every element of every batch is in the concatenation. */
  lemma {:induction false} FlattenContains<T>(batches: seq<seq<T>>, i: nat, j: nat)
    requires i < |batches| && j < |batches[i]|
    ensures batches[i][j] in Flatten(batches)
  {
    var init := batches[..|batches| - 1];
    if i < |init| {
      assert init[i] == batches[i];
      FlattenContains(init, i, j);
    }
  }

  /** Every element of the concatenation comes from some batch. */
  lemma {:induction false} FlattenSource<T>(batches: seq<seq<T>>, x: T) returns (i: nat, j: nat)
    requires x in Flatten(batches)
    ensures i < |batches| && j < |batches[i]| && batches[i][j] == x
  {
    var init := batches[..|batches| - 1];
    if x in Flatten(init) {
      i, j := FlattenSource(init, x);
      assert init[i] == batches[i];
    } else {
      i := |batches| - 1;
      j :| 0 <= j < |batches[i]| && batches[i][j] == x;
    }
  }

  predicate NonEmptyBatches(batches: seq<seq<real>>) {
    forall i :: 0 <= i < |batches| ==> |batches[i]| > 0
  }

  /** The record of iteration i + 1, given every iteration's lengths. */
  function RecordOf(batches: seq<seq<real>>, i: nat): (r: IterationRecord)
    requires NonEmptyBatches(batches) && i < |batches|
  {
    var seen := Flatten(batches[..i + 1]);
    FlattenContains(batches[..i + 1], i, 0);
    IterationRecord(i + 1, seen[BestIndex(seen)], Mean(batches[i]), Largest(batches[i]))
  }

  /** `history` holds one record per iteration, each computed from the lengths seen so far. */
  predicate Chronicle(history: seq<IterationRecord>, batches: seq<seq<real>>) {
    |history| == |batches| && NonEmptyBatches(batches) &&
    forall i :: 0 <= i < |history| ==> history[i] == RecordOf(batches, i)
  }

  /** Every element of the first i + 1 batches is at least the best recorded for iteration i + 1. */
  lemma BestBelowSeen(batches: seq<seq<real>>, i: nat, j: nat, k: nat)
    requires NonEmptyBatches(batches) && j <= i < |batches| && k < |batches[j]|
    ensures RecordOf(batches, i).bestDistance <= batches[j][k]
  {
    var seen := Flatten(batches[..i + 1]);
    FlattenContains(batches[..i + 1], j, k);
    var t :| 0 <= t < |seen| && seen[t] == batches[j][k];
  }

  /**
   * The history is numbered 1, 2, ...; within a record best <= average <=
   * worst; and the best never increases from one record to the next.
   */
  lemma ChronicleOrdered(history: seq<IterationRecord>, batches: seq<seq<real>>)
    requires Chronicle(history, batches)
    ensures forall i :: 0 <= i < |history| ==> history[i].iteration == i + 1
    ensures forall i :: 0 <= i < |history| ==>
      history[i].bestDistance <= history[i].averageDistance <= history[i].worstDistance
    ensures forall i, j :: 0 <= i <= j < |history| ==> history[j].bestDistance <= history[i].bestDistance
  {
    forall i | 0 <= i < |history|
      ensures history[i].bestDistance <= history[i].averageDistance <= history[i].worstDistance
    {
      var b := batches[i];
      MeanBetween(b);
      BestBelowSeen(batches, i, i, BestIndex(b));
    }
    forall i, j | 0 <= i <= j < |history|
      ensures history[j].bestDistance <= history[i].bestDistance
    {
      var seen := Flatten(batches[..i + 1]);
      var t := BestIndex(seen);
      FlattenContains(batches[..i + 1], i, 0);
      var m, k := FlattenSource(batches[..i + 1], seen[t]);
      BestBelowSeen(batches, j, m, k);
    }
  }
}
