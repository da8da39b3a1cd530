# Ant Colony Optimisation core, modelled in Dafny

This project models the route optimiser in `src/aco/algorithm.py`: the class `ACO`. It solves a
travelling-salesman-style tour over `n` locations with an Ant Colony Optimisation heuristic.

- **Construction.** The optimiser takes a square distance matrix and keeps a private copy whose
  diagonal is forced to `1e-10`. It allocates an `n × n` pheromone matrix filled with `0.1`.
- **Next-node selection.** Each ant builds a closed tour. It starts at a random location and
  repeatedly picks an unvisited location with weight `pheromone^alpha · (1/distance)^beta`. When the
  total weight is not positive, it picks uniformly among the unvisited locations.
- **Pheromone update.** After every iteration all pheromones evaporate by the factor `1 - rho`. Then
  every ant's tour deposits `Q / length` on both directions of each edge it used.
- **History.** `run` keeps the best tour seen so far, where only a strictly shorter tour replaces it.
  It also returns one record per iteration holding the best, average and worst length.

Modules:

- `Wrappers` holds `Option`.
- `Tours` covers routes, permutations, path length and the unvisited list.
- `Pheromones` holds the deposit and trail specification functions and their closed forms.
- `Statistics` covers sum, mean, maximum, the first-minimum index and the iteration records.
- `Colony` holds class `Aco`. Its pheromone matrix is an `array2<real>` that is updated in place.

Randomness is a nondeterministic choice (`:|`):

- the start node can be any location;
- the weighted draw can be any unvisited location of positive weight;
- the fallback can be any unvisited location.

So every property below holds for every possible sequence of random draws. Exponentiation
(`x ** y`) is the opaque function field `power`, and `float('inf')` is the `Infinite` case of
`Bound`.

Points where the model follows what the code does rather than what its comments suggest:

- The constructor's docstring asks for `0 < rho < 1` (algorithm.py:39), but nothing checks it, and
  no argument is validated. The model therefore has no error path at construction and does not
  restrict `rho` or `Q`. The square matrix and `ant_count >= 1` are stated as the constructor's
  preconditions. What the code does with a `rho` or `Q` outside that range is under "## Left out".
- `_select_next_node` returns `None` only when every location is already visited. So a tour is
  always a full permutation plus the return edge, and the `break` at lines 131-132 never fires.
- Each of the two `+=` statements at lines 101-102 adds `delta`. An edge `(a, b)` therefore gains
  `delta` for every traversal of `a → b` plus every traversal of `b → a`. On a self-loop (`n = 1`,
  route `[0, 0]`) this gives `2·delta`, not one `delta` per traversal "in either direction".

## Model

| member | source | states |
|---|---|---|
| Colony.Aco.constructor | src/aco/algorithm.py:47-59 | The stored distances equal the caller's matrix off the diagonal and `1e-10` on it, and the caller's matrix is unchanged. `n` is the matrix dimension, the parameters are stored, and the pheromone matrix is fresh, `n × n`, with every entry `0.1`. |
| Tours.Unvisited | src/aco/algorithm.py:71 | The candidate list holds exactly the indices below `n` that are not in `visited`, in increasing order and without repeats. |
| Colony.Aco.SelectNextNode | src/aco/algorithm.py:61-85 | Returns `None` exactly when every location below `n` is visited. Otherwise it returns an unvisited location below `n`. When the total weight is positive, the chosen location has positive weight. Nothing is modified. |
| Tours.MissingLocation | src/aco/algorithm.py:129-131 | A repeat-free in-range route shorter than `n` misses some location below `n`, so the selection step cannot return `None` inside the construction loop. |
| Colony.Aco.ConstructRoute | src/aco/algorithm.py:125-134 | The built route has length `n + 1`, starts at the start node, and ends where it starts. Its first `n` entries are a permutation of `0..n-1`. |
| Tours.PermutationCovers | src/aco/algorithm.py:129-134 | A permutation of length `n` visits every location below `n`. |
| Tours.PathLengthExtend | src/aco/algorithm.py:137-140 | Appending a location adds exactly the distance of the new last edge, so the closing edge is counted once. |
| Tours.PathLengthPositive | src/aco/algorithm.py:137-140 | With positive distances, every route with at least one edge has positive length, so `Q / length` is defined. |
| Colony.Aco.Evaporate | src/aco/algorithm.py:94 | Every pheromone entry becomes `(1 - rho)` times its old value. |
| Colony.Aco.UpdatePheromones | src/aco/algorithm.py:87-102 | Every entry `(a, b)` becomes `(1 - rho)` times its old value plus the deposit on `(a, b)` of the zipped routes and lengths. |
| Pheromones.EdgeDepositCounts | src/aco/algorithm.py:99-102 | The deposit from one route on `(a, b)` is `delta` times the number of traversals `a → b` plus the number of traversals `b → a`. |
| Pheromones.DepositClosedForm | src/aco/algorithm.py:97-102 | The total deposit on `(a, b)` is the sum over the zipped pairs of `Q / length` times that route's traversal count of `(a, b)` in both directions. |
| Pheromones.UntouchedEntryGetsNothing | src/aco/algorithm.py:94-102 | An entry whose edge no route uses gains nothing, so the update only scales it by `1 - rho`. |
| Pheromones.DepositNonNegative | src/aco/algorithm.py:97-102 | With `Q >= 0` and positive lengths, the deposit is defined and non-negative. |
| Pheromones.UpdateKeepsNonNegative | src/aco/algorithm.py:93-102 | With `0 <= rho <= 1`, `Q >= 0` and positive lengths, one update maps a non-negative entry to a non-negative entry. |
| Pheromones.DepositSymmetric | src/aco/algorithm.py:101-102 | The deposit on `(a, b)` equals the deposit on `(b, a)`. |
| Pheromones.TrailNonNegative | src/aco/algorithm.py:119-150 | After any number of iterations with `0 <= rho <= 1`, `Q >= 0` and positive lengths, an entry that started non-negative is still non-negative. |
| Colony.Aco.ReinforceTrail | src/aco/algorithm.py:150 | One more update extends the pheromone trail by the new iteration's routes and lengths. |
| Statistics.BestIndex | src/aco/algorithm.py:145-147 | Returns an index of a minimum length that is strictly below every earlier length, which is the first minimum. With strict `<`, a tie keeps the earlier route. |
| Colony.BestAppend | src/aco/algorithm.py:144-147 | Replacing the best only on a strictly shorter length keeps the best equal to the first shortest of all tours seen so far. |
| Colony.Aco.ReleaseAnts | src/aco/algorithm.py:123-147 | Produces `ant_count` closed tours. Each length equals the summed edge distances and is positive. The returned best is the first shortest tour of everything seen so far. |
| Statistics.Largest | src/aco/algorithm.py:153 | The worst length is one of the lengths and is at least every length. |
| Statistics.MeanBetween | src/aco/algorithm.py:152-153 | The average lies between the minimum and the maximum of the iteration's lengths. |
| Statistics.ChronicleOrdered | src/aco/algorithm.py:119-159 | Record `i` carries iteration number `i + 1`. In each record, best ≤ average ≤ worst, and the best never increases from one record to the next. |
| Colony.SearchStep | src/aco/algorithm.py:119-159 | One iteration of `run` keeps the search state consistent with the first-shortest tour, the trail and the records. |
| Colony.Aco.Run | src/aco/algorithm.py:104-168 | Returns exactly `iterations` records, numbered `1..iterations`, with best ≤ average ≤ worst and a non-increasing best. Every tour built is closed and measured. The returned best tour is closed and its length is its path length. Every pheromone entry equals the trail of its initial value. |

## Left out

- Seeding (lines 43-45) and the promise that equal seeds give equal runs: randomness is a nondeterministic choice, so no particular draw sequence is modelled.
- Colony.Aco.SelectNextNode: states which locations can be drawn but not the roulette probabilities `w(j) / total` of `np.random.choice` or the uniform distribution of `random.choice`.
- `x ** y`: the power function is a parameter with no stated properties, so nothing depends on the values of `alpha` and `beta`.
- Colony.Aco.Run: does not model the `ValueError` that `rho > 1` or `Q < 0` lead to. In that case evaporation or a negative deposit makes some pheromone entries negative, so from the second iteration some candidate weights are negative while their total is positive. `np.random.choice` at line 85 then raises `ValueError` because the probabilities are not non-negative. With a fractional `alpha`, the weights become NaN instead. The model places no bound on `rho` or `Q` and continues through these iterations. Its draw picks a node of positive weight, and non-negativity of the pheromones is proved only under `0 <= rho <= 1` and `Q >= 0` (`Pheromones.TrailNonNegative`).
- Colony.Aco.Run: does not model infinite distance entries. The distance matrix builder writes `float("inf")` for unreachable pairs (src/data/osm_data.py:79-80). If a location is unreachable, every tour crosses an infinite edge. Then `length < best_length` at line 145 compares `inf < inf`, which is always false, so `run` returns the empty `best_route` and `inf` even after iterations. The model's distances are finite reals that `Run` requires to be positive. Its returned best is therefore always a closed tour with a finite length.
- Default arguments: `ant_count=10`, `alpha=1.0`, `beta=3.0`, `rho=0.3`, `Q=100` (lines 26-30) and `iterations=100` (line 104) are not modelled. The constructor and `Run` take every argument explicitly.
- Floating point: the model uses real arithmetic. It does not model rounding, underflow of the weights to zero, overflow, or NaN.
- Zero or negative distances: `Run` requires every stored distance to be positive. With a zero distance the code divides by zero and gets `inf`/`nan` weights. A zero tour length would make `Q / length` undefined.
- An empty matrix: `Run` requires `n >= 1`, because `random.randint(0, -1)` raises.
- `ant_count = 0`: the constructor requires `ant_count >= 1`. With no ants, the first iteration of `run` computes `np.mean([])`, which gives `nan` with a warning, and then `np.max([])` at line 153, which raises `ValueError`. With `iterations = 0` the code would not fail, but the model still requires `ant_count >= 1`.
- Non-square input: the constructor requires a square matrix, because the code does not check it and indexes the matrix as `n × n`.
- The per-iteration log line (lines 161-166): it is output only.
- Copy plus in-place `fill_diagonal`: the stored distance matrix is modelled as the immutable value the two steps produce. The model does not capture aliasing of that copy.
- The convergence scenarios over many iterations: they are probabilistic and not provable for every draw sequence.
- `src/aco/utils.py` (haversine distances), the data loaders and the user interface are not part of this model.
