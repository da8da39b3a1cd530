/**
 * What one pheromone update adds to an entry, and what repeated updates
 * leave in it. Evaporation scales an entry by (1 - rho); the deposit of a
 * route of length L adds Q / L to both directions of every edge it
 * traverses, so an entry (a, b) gains Q / L once per traversal a -> b and
 * once per traversal b -> a (twice per step for a self-loop a -> a).
 */
module Pheromones {
  import opened Tours

  /**
   * The deposit that the edges of `route` leave on entry (a, b) when each
   * edge (x, y) adds `delta` to entry (x, y) and then `delta` to entry (y, x).
   */
  function EdgeDeposit(route: seq<nat>, delta: real, a: nat, b: nat): real
    decreases |route|
  {
    if |route| < 2 then 0.0
    else
      var x, y := route[|route| - 2], route[|route| - 1];
      EdgeDeposit(route[..|route| - 1], delta, a, b)
        + (if x == a && y == b then delta else 0.0)
        + (if y == a && x == b then delta else 0.0)
  }

  /** The number of indices i with route[i] == a and route[i + 1] == b. */
  function Traversals(route: seq<nat>, a: nat, b: nat): nat
    decreases |route|
  {
    if |route| < 2 then 0
    else
      Traversals(route[..|route| - 1], a, b)
        + (if route[|route| - 2] == a && route[|route| - 1] == b then 1 else 0)
  }

  /** Closed form of one route's deposit: delta times (traversals a -> b plus traversals b -> a). */
  lemma {:induction false} EdgeDepositCounts(route: seq<nat>, delta: real, a: nat, b: nat)
    ensures EdgeDeposit(route, delta, a, b) == RouteShare(route, delta, a, b)
  {
    if |route| >= 2 {
      EdgeDepositCounts(route[..|route| - 1], delta, a, b);
    }
  }

  /** A route deposits equally on (a, b) and on (b, a). */
  lemma {:induction false} EdgeDepositSymmetric(route: seq<nat>, delta: real, a: nat, b: nat)
    ensures EdgeDeposit(route, delta, a, b) == EdgeDeposit(route, delta, b, a)
  {
    if |route| >= 2 {
      EdgeDepositSymmetric(route[..|route| - 1], delta, a, b);
    }
  }

  /** The number of (route, length) pairs `zip` walks over: the shorter of the two lists. */
  function Pairs(routes: seq<seq<nat>>, lengths: seq<real>): (m: nat)
    ensures m <= |routes| && m <= |lengths|
    ensures m == |routes| || m == |lengths|
  {
    if |routes| <= |lengths| then |routes| else |lengths|
  }

  /** Q / length is defined for every route that is paired with a length. */
  predicate DepositDefined(routes: seq<seq<nat>>, lengths: seq<real>) {
    forall k :: 0 <= k < |routes| && k < |lengths| ==> lengths[k] != 0.0
  }

  /** Deposit on entry (a, b) from the first `k` routes. */
  function DepositUpTo(routes: seq<seq<nat>>, lengths: seq<real>, q: real, k: nat, a: nat, b: nat): real
    requires k <= Pairs(routes, lengths) && DepositDefined(routes, lengths)
  {
    if k == 0 then 0.0
    else DepositUpTo(routes, lengths, q, k - 1, a, b) + EdgeDeposit(routes[k - 1], q / lengths[k - 1], a, b)
  }

  /** Deposit on entry (a, b) from all routes of one iteration. */
  function Deposit(routes: seq<seq<nat>>, lengths: seq<real>, q: real, a: nat, b: nat): real
    requires DepositDefined(routes, lengths)
  {
    DepositUpTo(routes, lengths, q, Pairs(routes, lengths), a, b)
  }

  /** The closed form: sum over the first k routes of Q / length times the traversals of (a, b) or (b, a). */
  function CountedDeposit(routes: seq<seq<nat>>, lengths: seq<real>, q: real, k: nat, a: nat, b: nat): real
    requires k <= Pairs(routes, lengths) && DepositDefined(routes, lengths)
  {
    if k == 0 then 0.0
    else
      CountedDeposit(routes, lengths, q, k - 1, a, b) + RouteShare(routes[k - 1], q / lengths[k - 1], a, b)
  }

  /** delta times (traversals a -> b plus traversals b -> a); a self-loop counts twice per traversal. */
  function RouteShare(route: seq<nat>, delta: real, a: nat, b: nat): real {
    delta * ((Traversals(route, a, b) + Traversals(route, b, a)) as real)
  }

  lemma {:induction false} DepositUpToCounts(routes: seq<seq<nat>>, lengths: seq<real>, q: real, k: nat, a: nat, b: nat)
    requires k <= Pairs(routes, lengths) && DepositDefined(routes, lengths)
    ensures DepositUpTo(routes, lengths, q, k, a, b) == CountedDeposit(routes, lengths, q, k, a, b)
  {
    if k > 0 {
      DepositUpToCounts(routes, lengths, q, k - 1, a, b);
      EdgeDepositCounts(routes[k - 1], q / lengths[k - 1], a, b);
    }
  }

  /** The deposit of an iteration equals its closed form. */
  lemma DepositClosedForm(routes: seq<seq<nat>>, lengths: seq<real>, q: real, a: nat, b: nat)
    requires DepositDefined(routes, lengths)
    ensures Deposit(routes, lengths, q, a, b) == CountedDeposit(routes, lengths, q, Pairs(routes, lengths), a, b)
  {
    DepositUpToCounts(routes, lengths, q, Pairs(routes, lengths), a, b);
  }

  lemma {:induction false} CountedDepositZero(routes: seq<seq<nat>>, lengths: seq<real>, q: real, k: nat, a: nat, b: nat)
    requires k <= Pairs(routes, lengths) && DepositDefined(routes, lengths)
    requires forall i :: 0 <= i < k ==> Traversals(routes[i], a, b) == 0 && Traversals(routes[i], b, a) == 0
    ensures CountedDeposit(routes, lengths, q, k, a, b) == 0.0
  {
    if k > 0 {
      CountedDepositZero(routes, lengths, q, k - 1, a, b);
    }
  }

  /** An entry on no route's edges receives no deposit: the update only scales it. */
  lemma UntouchedEntryGetsNothing(routes: seq<seq<nat>>, lengths: seq<real>, q: real, a: nat, b: nat)
    requires DepositDefined(routes, lengths)
    requires forall i :: 0 <= i < |routes| ==> Traversals(routes[i], a, b) == 0 && Traversals(routes[i], b, a) == 0
    ensures Deposit(routes, lengths, q, a, b) == 0.0
  {
    DepositClosedForm(routes, lengths, q, a, b);
    CountedDepositZero(routes, lengths, q, Pairs(routes, lengths), a, b);
  }

  lemma {:induction false} EdgeDepositNonNegative(route: seq<nat>, delta: real, a: nat, b: nat)
    requires delta >= 0.0
    ensures EdgeDeposit(route, delta, a, b) >= 0.0
  {
    if |route| >= 2 {
      EdgeDepositNonNegative(route[..|route| - 1], delta, a, b);
    }
  }

  lemma {:induction false} DepositUpToNonNegative(routes: seq<seq<nat>>, lengths: seq<real>, q: real, k: nat, a: nat, b: nat)
    requires k <= Pairs(routes, lengths) && DepositDefined(routes, lengths)
    requires q >= 0.0 && forall i :: 0 <= i < k ==> lengths[i] > 0.0
    ensures DepositUpTo(routes, lengths, q, k, a, b) >= 0.0
  {
    if k > 0 {
      DepositUpToNonNegative(routes, lengths, q, k - 1, a, b);
      EdgeDepositNonNegative(routes[k - 1], q / lengths[k - 1], a, b);
    }
  }

  /** With Q >= 0 and positive lengths, the deposit is never negative. */
  lemma DepositNonNegative(routes: seq<seq<nat>>, lengths: seq<real>, q: real, a: nat, b: nat)
    requires q >= 0.0 && forall i :: 0 <= i < |lengths| ==> lengths[i] > 0.0
    ensures DepositDefined(routes, lengths)
    ensures Deposit(routes, lengths, q, a, b) >= 0.0
  {
    DepositUpToNonNegative(routes, lengths, q, Pairs(routes, lengths), a, b);
  }

  lemma {:induction false} DepositUpToSymmetric(routes: seq<seq<nat>>, lengths: seq<real>, q: real, k: nat, a: nat, b: nat)
    requires k <= Pairs(routes, lengths) && DepositDefined(routes, lengths)
    ensures DepositUpTo(routes, lengths, q, k, a, b) == DepositUpTo(routes, lengths, q, k, b, a)
  {
    if k > 0 {
      DepositUpToSymmetric(routes, lengths, q, k - 1, a, b);
      EdgeDepositSymmetric(routes[k - 1], q / lengths[k - 1], a, b);
    }
  }

  /** The deposit is symmetric whatever the direction the routes travel. */
  lemma DepositSymmetric(routes: seq<seq<nat>>, lengths: seq<real>, q: real, a: nat, b: nat)
    requires DepositDefined(routes, lengths)
    ensures Deposit(routes, lengths, q, a, b) == Deposit(routes, lengths, q, b, a)
  {
    DepositUpToSymmetric(routes, lengths, q, Pairs(routes, lengths), a, b);
  }

  /** An entry after evaporation at rate rho. */
  function Evaporated(p: real, rho: real): real {
    (1.0 - rho) * p
  }

  /** With 0 <= rho <= 1, Q >= 0 and positive lengths, one update keeps a non-negative entry non-negative. */
  lemma UpdateKeepsNonNegative(p: real, rho: real, q: real, routes: seq<seq<nat>>, lengths: seq<real>, a: nat, b: nat)
    requires p >= 0.0 && 0.0 <= rho <= 1.0 && q >= 0.0
    requires forall i :: 0 <= i < |lengths| ==> lengths[i] > 0.0
    ensures DepositDefined(routes, lengths)
    ensures Evaporated(p, rho) + Deposit(routes, lengths, q, a, b) >= 0.0
  {
    DepositNonNegative(routes, lengths, q, a, b);
  }

  /** Every length of every iteration is non-zero. */
  predicate AllNonZero(lengthBatches: seq<seq<real>>) {
    forall i, k :: 0 <= i < |lengthBatches| && 0 <= k < |lengthBatches[i]| ==> lengthBatches[i][k] != 0.0
  }

  /**
   * The value of one pheromone entry, initially `p`, after one update per
   * iteration with that iteration's routes and lengths.
   */
  function Trail(p: real, rho: real, q: real, routeBatches: seq<seq<seq<nat>>>, lengthBatches: seq<seq<real>>, a: nat, b: nat): real
    requires |routeBatches| == |lengthBatches| && AllNonZero(lengthBatches)
    decreases |routeBatches|
  {
    if |routeBatches| == 0 then p
    else
      var last := |routeBatches| - 1;
      assert DepositDefined(routeBatches[last], lengthBatches[last]);
      Evaporated(Trail(p, rho, q, routeBatches[..last], lengthBatches[..last], a, b), rho)
        + Deposit(routeBatches[last], lengthBatches[last], q, a, b)
  }

  /** With 0 <= rho <= 1, Q >= 0 and positive lengths, an entry that starts non-negative stays so. */
  lemma {:induction false} TrailNonNegative(p: real, rho: real, q: real, routeBatches: seq<seq<seq<nat>>>, lengthBatches: seq<seq<real>>, a: nat, b: nat)
    requires |routeBatches| == |lengthBatches|
    requires forall i, k :: 0 <= i < |lengthBatches| && 0 <= k < |lengthBatches[i]| ==> lengthBatches[i][k] > 0.0
    requires p >= 0.0 && 0.0 <= rho <= 1.0 && q >= 0.0
    ensures AllNonZero(lengthBatches)
    ensures Trail(p, rho, q, routeBatches, lengthBatches, a, b) >= 0.0
  {
    if |routeBatches| > 0 {
      var last := |routeBatches| - 1;
      TrailNonNegative(p, rho, q, routeBatches[..last], lengthBatches[..last], a, b);
      UpdateKeepsNonNegative(Trail(p, rho, q, routeBatches[..last], lengthBatches[..last], a, b),
                             rho, q, routeBatches[last], lengthBatches[last], a, b);
    }
  }
}
