/**
 * The ant colony optimiser: a distance matrix, a pheromone matrix updated in
 * place once per iteration, and the search loop that builds one closed route
 * per ant, keeps the best route seen and records per-iteration statistics.
 *
 * Randomness is a nondeterministic choice: the start node, the roulette draw
 * and the uniform fallback may return any candidate the source could return,
 * and every property below holds whichever is drawn.
 */
module Colony {
  import opened Wrappers
  import opened Tours
  import opened Pheromones
  import opened Statistics

  /** Written on the diagonal of the distance matrix so that 1 / d is defined there. */
  const DiagonalFill: real := 0.0000000001

  /** Every pheromone entry before the first iteration. */
  const InitialPheromone: real := 0.1

  /** A route length or float('inf'). */
  datatype Bound = Infinite | Finite(value: real)

  /** `length < bound`, every real being below infinity. */
  predicate Improves(length: real, bound: Bound) {
    bound.Infinite? || length < bound.value
  }

  /** Each route is a closed tour over the locations of `d` and each length is its path length. */
  predicate Measured(d: Matrix, routes: seq<seq<nat>>, lengths: seq<real>) {
    IsSquare(d, |d|) && |routes| == |lengths| &&
    forall k :: 0 <= k < |routes| ==>
      IsClosedTour(routes[k], |d|) && lengths[k] == PathLength(d, routes[k])
  }

  /** `route` and `bound` are the first route of minimum length among `routes`. */
  predicate IsBest(routes: seq<seq<nat>>, lengths: seq<real>, route: seq<nat>, bound: Bound) {
    |lengths| > 0 && |routes| == |lengths| &&
    var b := BestIndex(lengths);
    bound == Finite(lengths[b]) && route == routes[b]
  }

  /** Recording one more measured route keeps the log measured. */
  lemma MeasuredAppend(d: Matrix, routes: seq<seq<nat>>, lengths: seq<real>, route: seq<nat>, length: real)
    requires Measured(d, routes, lengths)
    requires IsClosedTour(route, |d|) && length == PathLength(d, route)
    ensures Measured(d, routes + [route], lengths + [length])
  {
  }

  lemma MeasuredConcat(d: Matrix, routes: seq<seq<nat>>, lengths: seq<real>, more: seq<seq<nat>>, moreLengths: seq<real>)
    requires Measured(d, routes, lengths) && Measured(d, more, moreLengths)
    ensures Measured(d, routes + more, lengths + moreLengths)
  {
    var all, allLengths := routes + more, lengths + moreLengths;
    forall k | 0 <= k < |all|
      ensures IsClosedTour(all[k], |d|) && allLengths[k] == PathLength(d, all[k])
    {
      if k >= |routes| {
        assert all[k] == more[k - |routes|] && allLengths[k] == moreLengths[k - |routes|];
      }
    }
  }

  /**
   * The running best after one more route: replaced when the new length is
   * strictly below it (or it is still infinite), kept otherwise; it stays
   * the first route of minimum length.
   */
  lemma BestAppend(routes: seq<seq<nat>>, lengths: seq<real>, route: seq<nat>, length: real,
                   bestRoute: seq<nat>, bestLength: Bound)
    requires |routes| == |lengths|
    requires |lengths| == 0 ==> bestRoute == [] && bestLength == Infinite
    requires |lengths| > 0 ==> IsBest(routes, lengths, bestRoute, bestLength)
    ensures IsBest(routes + [route], lengths + [length],
                   if Improves(length, bestLength) then route else bestRoute,
                   if Improves(length, bestLength) then Finite(length) else bestLength)
  {
    var all := lengths + [length];
    assert all[..|all| - 1] == lengths;
    if |lengths| > 0 {
      assert BestIndex(all) == if length < lengths[BestIndex(lengths)] then |lengths| else BestIndex(lengths);
    }
  }

  /** The loop step of one ant: its measured route joins the log and the running best. */
  lemma AntStep(d: Matrix, seenRoutes: seq<seq<nat>>, seenLengths: seq<real>, routes: seq<seq<nat>>, lengths: seq<real>,
                route: seq<nat>, length: real, bestRoute: seq<nat>, bestLength: Bound)
    requires |seenRoutes| == |seenLengths| && Measured(d, routes, lengths)
    requires forall k :: 0 <= k < |lengths| ==> lengths[k] > 0.0
    requires IsClosedTour(route, |d|) && length == PathLength(d, route) && length > 0.0
    requires |seenLengths| + |lengths| == 0 ==> bestRoute == [] && bestLength == Infinite
    requires |seenLengths| + |lengths| > 0 ==> IsBest(seenRoutes + routes, seenLengths + lengths, bestRoute, bestLength)
    ensures Measured(d, routes + [route], lengths + [length])
    ensures forall k :: 0 <= k < |lengths| + 1 ==> (lengths + [length])[k] > 0.0
    ensures IsBest(seenRoutes + (routes + [route]), seenLengths + (lengths + [length]),
                   if Improves(length, bestLength) then route else bestRoute,
                   if Improves(length, bestLength) then Finite(length) else bestLength)
  {
    MeasuredAppend(d, routes, lengths, route, length);
    assert seenRoutes + routes == [] <==> seenLengths + lengths == [];
    BestAppend(seenRoutes + routes, seenLengths + lengths, route, length, bestRoute, bestLength);
    assert (seenRoutes + routes) + [route] == seenRoutes + (routes + [route]);
    assert (seenLengths + lengths) + [length] == seenLengths + (lengths + [length]);
  }

  /** One more iteration's record, with the best over everything seen so far, extends the chronicle. */
  lemma ChronicleAppend(history: seq<IterationRecord>, batches: seq<seq<real>>, batch: seq<real>, best: real)
    requires Chronicle(history, batches) && |batch| > 0
    requires var seen := Flatten(batches + [batch]); |seen| > 0 && best == seen[BestIndex(seen)]
    ensures Chronicle(history + [IterationRecord(|history| + 1, best, Mean(batch), Largest(batch))], batches + [batch])
  {
    var all := batches + [batch];
    assert all[..|all|] == all;
    forall i | 0 <= i < |batches|
      ensures RecordOf(all, i) == RecordOf(batches, i)
    {
      assert all[..i + 1] == batches[..i + 1];
    }
  }

  lemma FlattenAppend<T>(batches: seq<seq<T>>, batch: seq<T>)
    ensures Flatten(batches + [batch]) == Flatten(batches) + batch
  {
    assert (batches + [batch])[..|batches|] == batches;
  }

  /** One more update extends the trail of every entry. */
  lemma TrailAppend(rho: real, q: real, routeBatches: seq<seq<seq<nat>>>, lengthBatches: seq<seq<real>>,
                    routes: seq<seq<nat>>, lengths: seq<real>)
    requires |routeBatches| == |lengthBatches| && AllNonZero(lengthBatches)
    requires forall k :: 0 <= k < |lengths| ==> lengths[k] != 0.0
    ensures AllNonZero(lengthBatches + [lengths]) && DepositDefined(routes, lengths)
    ensures forall p, a, b ::
      Trail(p, rho, q, routeBatches + [routes], lengthBatches + [lengths], a, b)
      == Evaporated(Trail(p, rho, q, routeBatches, lengthBatches, a, b), rho) + Deposit(routes, lengths, q, a, b)
  {
    assert (routeBatches + [routes])[..|routeBatches|] == routeBatches;
    assert (lengthBatches + [lengths])[..|lengthBatches|] == lengthBatches;
  }

  /**
   * The state of a run after some iterations: per iteration `ants` measured
   * closed routes of positive length, the history they determine, and the
   * first shortest route seen so far (infinite before any route).
   */
  ghost predicate Searched(d: Matrix, ants: nat, routeBatches: seq<seq<seq<nat>>>, lengthBatches: seq<seq<real>>,
                           history: seq<IterationRecord>, bestRoute: seq<nat>, bestLength: Bound)
  {
    |routeBatches| == |lengthBatches| == |history| &&
    (forall i :: 0 <= i < |routeBatches| ==> |routeBatches[i]| == ants && Measured(d, routeBatches[i], lengthBatches[i])) &&
    (forall i, k :: 0 <= i < |lengthBatches| && 0 <= k < |lengthBatches[i]| ==> lengthBatches[i][k] > 0.0) &&
    Measured(d, Flatten(routeBatches), Flatten(lengthBatches)) &&
    Chronicle(history, lengthBatches) &&
    (|history| == 0 ==> bestRoute == [] && bestLength == Infinite) &&
    (|history| > 0 ==>
       IsBest(Flatten(routeBatches), Flatten(lengthBatches), bestRoute, bestLength) &&
       history[|history| - 1].bestDistance == bestLength.value)
  }

  lemma PositiveAppend(lengthBatches: seq<seq<real>>, lengths: seq<real>)
    requires forall i, k :: 0 <= i < |lengthBatches| && 0 <= k < |lengthBatches[i]| ==> lengthBatches[i][k] > 0.0
    requires forall k :: 0 <= k < |lengths| ==> lengths[k] > 0.0
    ensures var lb := lengthBatches + [lengths];
      forall i, k :: 0 <= i < |lb| && 0 <= k < |lb[i]| ==> lb[i][k] > 0.0
  {
    var lb := lengthBatches + [lengths];
    forall i, k | 0 <= i < |lb| && 0 <= k < |lb[i]| ensures lb[i][k] > 0.0 {
      if i == |lengthBatches| {
        assert lb[i] == lengths;
      } else {
        assert lb[i] == lengthBatches[i];
      }
    }
  }

  /** One iteration's routes and running best extend a run's state by one record. */
  lemma SearchStep(d: Matrix, ants: nat, routeBatches: seq<seq<seq<nat>>>, lengthBatches: seq<seq<real>>,
                   history: seq<IterationRecord>, bestRoute: seq<nat>, bestLength: Bound,
                   routes: seq<seq<nat>>, lengths: seq<real>, nextRoute: seq<nat>, nextLength: Bound)
    requires Searched(d, ants, routeBatches, lengthBatches, history, bestRoute, bestLength)
    requires |routes| == ants >= 1 && Measured(d, routes, lengths)
    requires forall k :: 0 <= k < |lengths| ==> lengths[k] > 0.0
    requires IsBest(Flatten(routeBatches) + routes, Flatten(lengthBatches) + lengths, nextRoute, nextLength)
    ensures Searched(d, ants, routeBatches + [routes], lengthBatches + [lengths],
                     history + [IterationRecord(|history| + 1, nextLength.value, Mean(lengths), Largest(lengths))],
                     nextRoute, nextLength)
  {
    var rb, lb := routeBatches + [routes], lengthBatches + [lengths];
    var h := history + [IterationRecord(|history| + 1, nextLength.value, Mean(lengths), Largest(lengths))];
    FlattenAppend(routeBatches, routes);
    FlattenAppend(lengthBatches, lengths);
    MeasuredConcat(d, Flatten(routeBatches), Flatten(lengthBatches), routes, lengths);
    assert Measured(d, Flatten(rb), Flatten(lb));
    ChronicleAppend(history, lengthBatches, lengths, nextLength.value);
    assert Chronicle(h, lb);
    assert forall i :: 0 <= i < |rb| ==> |rb[i]| == ants && Measured(d, rb[i], lb[i]) by {
      forall i | 0 <= i < |rb| ensures |rb[i]| == ants && Measured(d, rb[i], lb[i]) {
        if i == |routeBatches| {
          assert rb[i] == routes && lb[i] == lengths;
        } else {
          assert rb[i] == routeBatches[i] && lb[i] == lengthBatches[i];
        }
      }
    }
    PositiveAppend(lengthBatches, lengths);
    assert IsBest(Flatten(rb), Flatten(lb), nextRoute, nextLength);
    assert h[|h| - 1].bestDistance == nextLength.value;
  }

  class Aco {
    const distances: Matrix
    const pheromone: array2<real>
    const numNodes: nat
    const antCount: nat
    const alpha: real
    const beta: real
    const rho: real
    const q: real
    /** Real exponentiation x ** y; the model leaves its values open. */
    const power: (real, real) -> real

    predicate Valid() {
      IsSquare(distances, numNodes) &&
      (forall i :: 0 <= i < numNodes ==> distances[i][i] == DiagonalFill) &&
      pheromone.Length0 == numNodes && pheromone.Length1 == numNodes &&
      antCount >= 1
    }

    /**
     * Takes a copy of the caller's matrix with the diagonal forced to
     * DiagonalFill, and fills an n x n pheromone matrix with InitialPheromone.
     */
    constructor (distanceMatrix: array2<real>, antCount: nat, alpha: real, beta: real, rho: real, q: real,
                 power: (real, real) -> real)
      requires distanceMatrix.Length0 == distanceMatrix.Length1
      requires antCount >= 1
      ensures Valid()
      ensures numNodes == distanceMatrix.Length0
      ensures forall i, j :: 0 <= i < numNodes && 0 <= j < numNodes ==>
        distances[i][j] == if i == j then DiagonalFill else distanceMatrix[i, j]
      ensures fresh(pheromone)
      ensures forall i, j :: 0 <= i < numNodes && 0 <= j < numNodes ==> pheromone[i, j] == InitialPheromone
      ensures unchanged(distanceMatrix)
      ensures this.antCount == antCount && this.alpha == alpha && this.beta == beta
      ensures this.rho == rho && this.q == q && this.power == power
    {
      var n := distanceMatrix.Length0;
      distances := seq(n, i requires 0 <= i < n reads distanceMatrix =>
        seq(n, j requires 0 <= j < n reads distanceMatrix => if i == j then DiagonalFill else distanceMatrix[i, j]));
      numNodes := n;
      this.antCount := antCount;
      this.alpha := alpha;
      this.beta := beta;
      this.rho := rho;
      this.q := q;
      this.power := power;
      pheromone := new real[n, n]((i, j) => InitialPheromone);
    }

    /** pheromone[current][next] ** alpha * (1 / distances[current][next]) ** beta */
    function Weight(current: nat, next: nat): real
      reads pheromone
      requires Valid() && current < numNodes && next < numNodes && distances[current][next] != 0.0
    {
      power(pheromone[current, next], alpha) * power(1.0 / distances[current][next], beta)
    }

    /** The weights of the unvisited candidates, in the order of Unvisited. */
    function CandidateWeights(current: nat, visited: seq<nat>): seq<real>
      reads pheromone
      requires Valid() && current < numNodes
      requires forall j :: 0 <= j < numNodes && j !in visited ==> distances[current][j] != 0.0
    {
      var unvisited := Unvisited(numNodes, visited);
      seq(|unvisited|, k requires 0 <= k < |unvisited| reads pheromone =>
        assert unvisited[k] in unvisited;
        Weight(current, unvisited[k]))
    }

    /**
     * The next location of an ant at `current`: None when every location is
     * visited; otherwise an unvisited location, drawn by weight when the
     * total weight is positive (so never one of weight zero) and uniformly
     * otherwise. Reads the matrices and changes nothing.
     */
    method SelectNextNode(current: nat, visited: seq<nat>) returns (next: Option<nat>)
      requires Valid() && current < numNodes
      requires forall j :: 0 <= j < numNodes && j !in visited ==> distances[current][j] != 0.0
      ensures next.None? <==> forall v :: 0 <= v < numNodes ==> v in visited
      ensures next.Some? ==> next.value < numNodes && next.value !in visited
      ensures next.Some? && Sum(CandidateWeights(current, visited)) > 0.0 ==> Weight(current, next.value) > 0.0
    {
      var unvisited := Unvisited(numNodes, visited);
      if |unvisited| == 0 {
        return None;
      }
      var weights := CandidateWeights(current, visited);
      var total := Sum(weights);
      if total <= 0.0 {
        var k :| 0 <= k < |unvisited|;
        assert unvisited[k] in unvisited;
        return Some(unvisited[k]);
      }
      PositiveTerm(weights);
      var k :| 0 <= k < |unvisited| && weights[k] > 0.0;
      assert unvisited[k] in unvisited;
      return Some(unvisited[k]);
    }

    /**
     * One ant's route from `start`: extend by SelectNextNode until n
     * locations are on it, then return to the start.
     */
    method ConstructRoute(start: nat) returns (route: seq<nat>)
      requires Valid() && Positive(distances) && start < numNodes
      ensures IsClosedTour(route, numNodes) && route[0] == start
    {
      route := [start];
      while |route| < numNodes
        invariant 1 <= |route| <= numNodes
        invariant route[0] == start
        invariant InRange(route, numNodes) && Distinct(route)
      {
        MissingLocation(route, numNodes);
        var next := SelectNextNode(route[|route| - 1], route);
        if next.None? {
          break;
        }
        route := route + [next.value];
      }
      route := route + [route[0]];
      assert route[..numNodes] == route[..|route| - 1];
    }

    /** Scales every pheromone entry by (1 - rho), in place. */
    method Evaporate()
      requires Valid()
      modifies pheromone
      ensures forall a, b :: 0 <= a < numNodes && 0 <= b < numNodes ==>
        pheromone[a, b] == Evaporated(old(pheromone[a, b]), rho)
    {
      for a := 0 to numNodes
        invariant forall x, y :: 0 <= x < a && 0 <= y < numNodes ==>
          pheromone[x, y] == Evaporated(old(pheromone[x, y]), rho)
        invariant forall x, y :: a <= x < numNodes && 0 <= y < numNodes ==> pheromone[x, y] == old(pheromone[x, y])
      {
        for b := 0 to numNodes
          invariant forall x, y :: 0 <= x < a && 0 <= y < numNodes ==>
            pheromone[x, y] == Evaporated(old(pheromone[x, y]), rho)
          invariant forall y :: 0 <= y < b ==> pheromone[a, y] == Evaporated(old(pheromone[a, y]), rho)
          invariant forall x, y :: a <= x < numNodes && 0 <= y < numNodes && (x != a || b <= y) ==>
            pheromone[x, y] == old(pheromone[x, y])
        {
          pheromone[a, b] := (1.0 - rho) * pheromone[a, b];
        }
      }
    }

    /**
     * Evaporation, then for each (route, length) pair Q / length added to
     * both directions of every edge of the route.
     */
    method UpdatePheromones(routes: seq<seq<nat>>, lengths: seq<real>)
      requires Valid()
      requires forall k :: 0 <= k < |routes| ==> InRange(routes[k], numNodes)
      requires DepositDefined(routes, lengths)
      modifies pheromone
      ensures forall a, b :: 0 <= a < numNodes && 0 <= b < numNodes ==>
        pheromone[a, b] == Evaporated(old(pheromone[a, b]), rho) + Deposit(routes, lengths, q, a, b)
    {
      Evaporate();
      for k := 0 to Pairs(routes, lengths)
        invariant forall x, y :: 0 <= x < numNodes && 0 <= y < numNodes ==>
          pheromone[x, y] == Evaporated(old(pheromone[x, y]), rho) + DepositUpTo(routes, lengths, q, k, x, y)
      {
        var route, delta := routes[k], q / lengths[k];
        var i := 0;
        while i + 1 < |route|
          invariant i <= |route| && (|route| > 0 ==> i < |route|)
          invariant forall x, y :: 0 <= x < numNodes && 0 <= y < numNodes ==>
            pheromone[x, y] == Evaporated(old(pheromone[x, y]), rho) + DepositUpTo(routes, lengths, q, k, x, y)
              + (if |route| == 0 then 0.0 else EdgeDeposit(route[..i + 1], delta, x, y))
        {
          var a, b := route[i], route[i + 1];
          assert route[..i + 2][..i + 1] == route[..i + 1];
          pheromone[a, b] := pheromone[a, b] + delta;
          pheromone[b, a] := pheromone[b, a] + delta;
          i := i + 1;
        }
        assert |route| > 0 ==> route[..i + 1] == route;
      }
    }

    /** The pheromone matrix as a value. */
    ghost function PheromoneMatrix(): (m: Matrix)
      reads pheromone
      requires Valid()
      ensures IsSquare(m, numNodes)
      ensures forall a, b :: 0 <= a < numNodes && 0 <= b < numNodes ==> m[a][b] == pheromone[a, b]
    {
      seq(numNodes, a requires 0 <= a < numNodes reads pheromone =>
        seq(numNodes, b requires 0 <= b < numNodes reads pheromone => pheromone[a, b]))
    }

    /**
     * UpdatePheromones seen across a run: if every entry is the trail, over
     * the earlier iterations, of its value `initial` when the run began,
     * afterwards it is the trail over the earlier iterations and this one.
     */
    method ReinforceTrail(ghost initial: Matrix, ghost routeBatches: seq<seq<seq<nat>>>,
                          ghost lengthBatches: seq<seq<real>>, routes: seq<seq<nat>>, lengths: seq<real>)
      requires Valid() && IsSquare(initial, numNodes)
      requires |routeBatches| == |lengthBatches| && AllNonZero(lengthBatches)
      requires forall k :: 0 <= k < |routes| ==> InRange(routes[k], numNodes)
      requires forall k :: 0 <= k < |lengths| ==> lengths[k] != 0.0
      requires forall a, b :: 0 <= a < numNodes && 0 <= b < numNodes ==>
        pheromone[a, b] == Trail(initial[a][b], rho, q, routeBatches, lengthBatches, a, b)
      modifies pheromone
      ensures AllNonZero(lengthBatches + [lengths])
      ensures forall a, b :: 0 <= a < numNodes && 0 <= b < numNodes ==>
        pheromone[a, b] == Trail(initial[a][b], rho, q, routeBatches + [routes], lengthBatches + [lengths], a, b)
    {
      TrailAppend(rho, q, routeBatches, lengthBatches, routes, lengths);
      UpdatePheromones(routes, lengths);
    }

    /**
     * One iteration's ants: each starts at a random location, builds a
     * closed route and measures it; the running best is replaced only by a
     * strictly shorter route. `seenRoutes` and `seenLengths` are the routes
     * of the earlier iterations, which the running best ranges over.
     */
    method ReleaseAnts(ghost seenRoutes: seq<seq<nat>>, ghost seenLengths: seq<real>,
                       bestRoute: seq<nat>, bestLength: Bound)
      returns (routes: seq<seq<nat>>, lengths: seq<real>, nextRoute: seq<nat>, nextLength: Bound)
      requires Valid() && numNodes >= 1 && Positive(distances)
      requires |seenRoutes| == |seenLengths|
      requires |seenLengths| == 0 ==> bestRoute == [] && bestLength == Infinite
      requires |seenLengths| > 0 ==> IsBest(seenRoutes, seenLengths, bestRoute, bestLength)
      ensures |routes| == antCount && Measured(distances, routes, lengths)
      ensures forall k :: 0 <= k < |lengths| ==> lengths[k] > 0.0
      ensures IsBest(seenRoutes + routes, seenLengths + lengths, nextRoute, nextLength)
    {
      routes, lengths := [], [];
      nextRoute, nextLength := bestRoute, bestLength;
      assert seenRoutes + routes == seenRoutes && seenLengths + lengths == seenLengths;
      for ant := 0 to antCount
        invariant |routes| == |lengths| == ant
        invariant Measured(distances, routes, lengths)
        invariant forall k :: 0 <= k < ant ==> lengths[k] > 0.0
        invariant |seenLengths| + ant == 0 ==> nextRoute == [] && nextLength == Infinite
        invariant |seenLengths| + ant > 0 ==> IsBest(seenRoutes + routes, seenLengths + lengths, nextRoute, nextLength)
      {
        var start :| 0 <= start < numNodes;
        var route := ConstructRoute(start);
        var length := PathLength(distances, route);
        PathLengthPositive(distances, route);
        AntStep(distances, seenRoutes, seenLengths, routes, lengths, route, length, nextRoute, nextLength);
        routes := routes + [route];
        lengths := lengths + [length];
        if Improves(length, nextLength) {
          nextLength := Finite(length);
          nextRoute := route;
        }
      }
    }

    /**
     * The search loop: per iteration, the ants' routes and the running best,
     * the pheromone update, and one history record.
     */
    method Run(iterations: nat) returns (bestRoute: seq<nat>, bestLength: Bound, history: seq<IterationRecord>,
                                         ghost routeBatches: seq<seq<seq<nat>>>, ghost lengthBatches: seq<seq<real>>)
      requires Valid() && numNodes >= 1 && Positive(distances)
      modifies pheromone
      ensures |history| == iterations
      ensures Searched(distances, antCount, routeBatches, lengthBatches, history, bestRoute, bestLength)
      ensures iterations > 0 ==> IsClosedTour(bestRoute, numNodes) && bestLength == Finite(PathLength(distances, bestRoute))
      ensures forall i :: 0 <= i < iterations ==> history[i].iteration == i + 1
      ensures forall i :: 0 <= i < iterations ==>
        history[i].bestDistance <= history[i].averageDistance <= history[i].worstDistance
      ensures forall i, j :: 0 <= i <= j < iterations ==> history[j].bestDistance <= history[i].bestDistance
      ensures AllNonZero(lengthBatches)
      ensures forall a, b :: 0 <= a < numNodes && 0 <= b < numNodes ==>
        pheromone[a, b] == Trail(old(pheromone[a, b]), rho, q, routeBatches, lengthBatches, a, b)
    {
      bestRoute, bestLength, history := [], Infinite, [];
      routeBatches, lengthBatches := [], [];
      ghost var initial := PheromoneMatrix();
      for it := 1 to iterations + 1
        invariant |history| == it - 1
        invariant Searched(distances, antCount, routeBatches, lengthBatches, history, bestRoute, bestLength)
        invariant AllNonZero(lengthBatches)
        invariant forall a, b :: 0 <= a < numNodes && 0 <= b < numNodes ==>
          pheromone[a, b] == Trail(initial[a][b], rho, q, routeBatches, lengthBatches, a, b)
      {
        var allRoutes, allLengths, nextRoute, nextLength :=
          ReleaseAnts(Flatten(routeBatches), Flatten(lengthBatches), bestRoute, bestLength);
        ReinforceTrail(initial, routeBatches, lengthBatches, allRoutes, allLengths);
        SearchStep(distances, antCount, routeBatches, lengthBatches, history, bestRoute, bestLength,
                   allRoutes, allLengths, nextRoute, nextLength);
        bestRoute, bestLength := nextRoute, nextLength;
        var averageLength := Mean(allLengths);
        var worstLength := Largest(allLengths);
        history := history + [IterationRecord(it, bestLength.value, averageLength, worstLength)];
        routeBatches := routeBatches + [allRoutes];
        lengthBatches := lengthBatches + [allLengths];
      }
      ChronicleOrdered(history, lengthBatches);
    }
  }
}
