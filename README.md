# Simulated annealing for the travelling salesman problem

This project models the tour-search core of `Simulated_Annealing.cpp`, in four modules.

- **Tour evaluator** (`TourDistance`): `totalDistance`, the length of the closed cycle through indexed points. Edge i goes from `route[i]` to `route[(i + 1) % n]`, so the last point links back to the first.
- **Permutations** (`Permutations`): the building blocks the engine uses on tours:
  - the identity tour made by `std::iota`;
  - the exchange of two positions made by `std::swap`;
  - the Fisher–Yates pass made by `std::shuffle`;
  - the position `rng() % n`.
- **Cooling** (`Cooling`): the schedule of the outer `while (T > T_min)` loop, which multiplies the temperature by `alpha` after each block of iterations.
  - `ReachesFloor` says that some number of cooling steps takes T to or below the floor, that is, that the loop ends.
  - `StepsToFloor` is the least such number: the number of blocks the loop runs.
- **Annealing engine** (`Annealing`): `simulatedAnnealing`.
  - It shuffles an identity tour to get the start tour.
  - Each iteration of the inner `for` loop does four things:
    - it proposes the current tour with two random positions exchanged;
    - it measures both tours;
    - it accepts the proposal when it is shorter, or when the Metropolis test says so;
    - it replaces the incumbent (the best tour so far) when an accepted proposal is strictly shorter than it.

## How the engine is specified

- `Step` is one iteration of the inner loop, as a function of the state (current tour, incumbent, incumbent distance, draw counter).
  - Outside the source's domain it leaves the state unchanged. That domain excludes an empty tour, where `rng() % 0` is undefined, and an index naming no point.
- `Iterate(step, s, m)` is m iterations, recording every tour that was current and every drop of the incumbent distance.
- `Run` is the outer loop: blocks of `Iterate` at each temperature, then one cooling step, until the temperature is at or below the floor.
- `AnnealingRun` is the whole run, from the search `Start` made by the shuffle.
- `Iterate` and `Run` take the step as a function value, so the invariant lemmas hold for every step obeying `StepLaw`. `AnnealerLaw` shows the annealing step obeys it.
- The methods `AnnealStep`, `AnnealIteration`, `AnnealAtTemperature`, `AnnealCooling`, `StartTour` and `SimulatedAnnealing` are the loops of the source. Each is proved to compute exactly its specification function.

## Abstractions

- **Edge length.** The Euclidean length `hypot` is a parameter `len: (Point, Point) -> real`. Lemmas that need facts about it say so in their `requires`:
  - `NonNegativeLengths` (non-negative);
  - `ZeroSelfLength` (zero on a self-edge);
  - `Symmetric` (symmetric).
- **Randomness.** Randomness is an oracle.
  - `rng: nat -> nat` is the stream of 32-bit draws; `rng(k)` is the k-th draw the model consumes.
  - The shuffle uses draws 0 to n-2.
  - Each iteration then uses two draws for the swap positions.
  - When the proposal is not shorter, the iteration also uses two draws for `randReal(rng)`, since a uniform `double` takes two 32-bit draws.
  - `metropolis(k, delta, T)` is the outcome of `randReal(rng) < exp(-delta / T)` made with draws k and k+1.
  - The `||` in the acceptance test short-circuits, so the test is not made, and no draws are used, when `delta < 0`.
- **Numbers.** Doubles are modelled as `real`.
- **Vectors.** Vectors are `seq`s. The methods return the new current tour, incumbent, incumbent distance and draw counter; they do not assign them in place.
- **Ghost outputs.** `SimulatedAnnealing` returns the incumbent tour and its distance (`outBestDist`). Its ghost outputs record the run:
  - `temps`: every temperature the outer loop tested;
  - `visited`: every tour that was current;
  - `improvements`: the incumbent distance at the start and after each improvement.

## Model

| member | source | states |
|---|---|---|
| TourDistance.EdgeLength | Simulated_Annealing.cpp:18-20 | edge i runs from `route[i]` to `route[(i + 1) % n]`: to the next point for i < n-1, and back to the first point for the last edge; non-negative when lengths are |
| TourDistance.PartialDistance | Simulated_Annealing.cpp:15-21 | the sum of the first k edges is non-negative when all edge lengths are |
| TourDistance.TotalDistance | Simulated_Annealing.cpp:14-23 | the closed-tour length is non-negative for non-negative lengths; 0 for an empty route; for one point it is the self-edge, which is 0 when a self-edge has length 0 |
| TourDistance.ComputeTotalDistance | Simulated_Annealing.cpp:14-23 | the accumulating `for` loop over the n edges returns exactly `TotalDistance` |
| TourDistance.PathLengthAppend | Simulated_Annealing.cpp:17-21 | adding one point to an open path adds exactly the edge into it |
| TourDistance.PartialDistanceIsPath | Simulated_Annealing.cpp:17-21 | for k < n, the first k edges of the cycle are the open path through the first k+1 points; the index `(i + 1) % n` only wraps on the last edge |
| TourDistance.ClosingEdge | Simulated_Annealing.cpp:17-21 | the tour length is the open path through all n points plus the closing edge from the last point back to the first, so exactly n edges |
| TourDistance.Rotate | Simulated_Annealing.cpp:17-19 | the tour started at position k: entry i is entry (i + k) mod n of the route |
| TourDistance.RotateOnce | Simulated_Annealing.cpp:17-21 | starting the cycle one point later keeps its length |
| TourDistance.RotationInvariant | Simulated_Annealing.cpp:17-21 | the tour length does not depend on which position starts the cycle |
| TourDistance.Reverse | Simulated_Annealing.cpp:17-19 | entry i of the reversed route is entry n-1-i |
| TourDistance.PathLengthReverse | Simulated_Annealing.cpp:20 | with a symmetric edge length, an open path is as long backwards as forwards |
| TourDistance.ReversalInvariant | Simulated_Annealing.cpp:17-21 | with a symmetric edge length, a tour is as long travelled backwards |
| Permutations.Identity | Simulated_Annealing.cpp:39-40 | the tour 0, 1, ..., n-1: n entries with entry i equal to i |
| Permutations.Iota | Simulated_Annealing.cpp:39-40 | `iota` fills the buffer with exactly the identity tour |
| Permutations.DistinctElementsSize | Simulated_Annealing.cpp:39-41 | a sequence without repetitions holds as many distinct values as it is long |
| Permutations.TourCoversAll | Simulated_Annealing.cpp:39-41 | a tour (n distinct entries below n) contains every one of 0..n-1, so it is a permutation |
| Permutations.Swapped | Simulated_Annealing.cpp:50-53 | the copy with positions i and j exchanged: same length, the two entries trade places, every other position unchanged |
| Permutations.SwapPermutes | Simulated_Annealing.cpp:53 | an exchange keeps the multiset of entries; an exchange of a position with itself changes nothing |
| Permutations.SwapKeepsTour | Simulated_Annealing.cpp:50-53 | exchanging two positions of a permutation of 0..n-1 yields a permutation of 0..n-1 |
| Permutations.Pick | Simulated_Annealing.cpp:51-52 | `rng() % n` is a valid position for n >= 1 |
| Permutations.ShuffleSteps | Simulated_Annealing.cpp:41 | each step of the shuffle pass keeps the length |
| Permutations.ShuffleKeepsTour | Simulated_Annealing.cpp:41 | every prefix of the shuffle pass over a permutation is a permutation |
| Permutations.Shuffled | Simulated_Annealing.cpp:39-41 | the start tour, the shuffled identity tour, is a permutation of 0..n-1 |
| Permutations.Shuffle | Simulated_Annealing.cpp:41 | the shuffle loop produces the full Fisher–Yates pass `ShuffleSteps` and uses n-1 draws; nothing for an empty buffer |
| Cooling.Cool | Simulated_Annealing.cpp:68 | `T *= alpha`; with 0 < alpha < 1 a positive temperature stays positive and strictly drops |
| Cooling.LeastSteps | Simulated_Annealing.cpp:47-68 | given k cooling steps that reach the floor, the least number that does: no fewer steps reach it |
| Cooling.StepsToFloor | Simulated_Annealing.cpp:47-68 | the number of blocks the outer loop runs: that many cooling steps reach the floor, and every earlier temperature is above it |
| Cooling.CoolingShift | Simulated_Annealing.cpp:47-68 | one `T *= alpha` from above the floor leaves a temperature from which the loop still ends, with exactly one block fewer to run |
| Cooling.CoolingStep | Simulated_Annealing.cpp:47-68 | from above the floor, with alpha < 1 and T_min > 0, `T *= alpha` strictly lowers T, and the integer measure floor(T / ((1 - alpha) T_min)) stays non-negative and drops |
| Cooling.PositiveFloorReached | Simulated_Annealing.cpp:29-30 | with the documented cooling rate alpha < 1 and a positive floor, the outer loop ends from every starting temperature |
| Cooling.CoolingExtends | Simulated_Annealing.cpp:47-68 | cooling once more from above the floor extends a geometric cooling schedule |
| Annealing.Candidate | Simulated_Annealing.cpp:50-53 | the proposal has the current tour's length |
| Annealing.Accepts | Simulated_Annealing.cpp:60 | the acceptance test: a shorter proposal (delta < 0) is always accepted; otherwise the Metropolis outcome decides |
| Annealing.Step | Simulated_Annealing.cpp:49-66 | one iteration: the proposal `Candidate` made with draws k and k+1 is accepted when delta < 0 or when `metropolis` with draws k+2 and k+3 says so; the incumbent is replaced when the proposal is accepted and strictly shorter; the contract states that the new current tour is the old one or the proposal, its length is unchanged, the incumbent is the old one or the new current tour, the incumbent distance never increases, 2 or 4 draws are used, and the state is unchanged outside the domain of `simulatedAnnealing` (no points, or an index naming no point) |
| Annealing.Advance | Simulated_Annealing.cpp:49-66 | one iteration with its record: the new state is the step's, exactly one tour (the new current one) is added to the visited record, and at most one distance to the improvements |
| Annealing.Iterate | Simulated_Annealing.cpp:48-67 | the inner `for` loop as m iterations of the step; m iterations record exactly m more current tours |
| Annealing.Run | Simulated_Annealing.cpp:47-69 | the outer `while (T > T_min)` loop: an inner loop at T, then `T *= alpha`, until T is at or below the floor; it tests exactly `StepsToFloor` more temperatures and keeps the first one tested |
| Annealing.Start | Simulated_Annealing.cpp:38-44 | the search after the set-up: the shuffled tour, a permutation, is both current and incumbent, the only tour visited, and its distance the only improvement recorded |
| Annealing.AnnealingRun | Simulated_Annealing.cpp:26-72 | the whole run for given draws and test outcomes: `Run` from `Start` at T0; it tests T0 first and `StepsToFloor(T0)` more temperatures |
| Annealing.SwapKeepsValidRoute | Simulated_Annealing.cpp:50-53 | an exchange keeps every index pointing at a coordinate |
| Annealing.CandidateRearranges | Simulated_Annealing.cpp:50-53 | the proposal has the same multiset of entries as the current tour; it is a permutation when the current tour is, and its indices still name points |
| Annealing.StepRules | Simulated_Annealing.cpp:50-66 | a shorter proposal is always accepted without the Metropolis test; otherwise the test made with the next two draws decides; an accepted proposal becomes current and a rejected one changes neither current nor incumbent; the incumbent becomes the proposal exactly when the proposal is accepted and strictly shorter than it; 2 draws are used, or 4 when the test is made |
| Annealing.StepKeepsFacts | Simulated_Annealing.cpp:50-66 | from a permutation, an iteration leaves a permutation as current; the incumbent distance never increases; the incumbent is unchanged or is the new current tour with its length; a new current tour is never shorter than the incumbent |
| Annealing.AnnealStep | Simulated_Annealing.cpp:49-66 | the body of the inner loop computes exactly the iteration `Step`, consulting the Metropolis test only when the proposal is not shorter, and its new current tour still names points |
| Annealing.IterateNext | Simulated_Annealing.cpp:48 | m + 1 iterations are m iterations followed by one more |
| Annealing.RunUnfold | Simulated_Annealing.cpp:47-69 | from above the floor, the run is one block of `iterPerTemp` iterations at T, then the run from `T * alpha`, which still ends |
| Annealing.AnnealerLaw | Simulated_Annealing.cpp:47-69 | the iterations at all temperatures obey the step law: from a permutation each keeps `StepFacts` |
| Annealing.StepKeepsInvariant | Simulated_Annealing.cpp:48-67 | one iteration keeps the search invariant: current and incumbent are permutations, the incumbent distance is the incumbent's length and at most the length of every tour that has been current, and the recorded improvements strictly decrease |
| Annealing.IterateKeepsInvariant | Simulated_Annealing.cpp:48-67 | m iterations keep the search invariant and record m more current tours |
| Annealing.RunKeepsInvariant | Simulated_Annealing.cpp:47-69 | the outer loop keeps the search invariant; the temperatures tested form a geometric cooling schedule ending at or below T_min after `StepsToFloor` blocks; `StepsToFloor · Iterations(iterPerTemp)` tours are visited, where `Iterations(iterPerTemp)` is `iterPerTemp` when positive and 0 otherwise |
| Annealing.RunHolds | Simulated_Annealing.cpp:47-69 | the outer loop keeps the search invariant |
| Annealing.RunSchedule | Simulated_Annealing.cpp:47-68 | the temperatures the outer loop tests extend a geometric cooling schedule, each step from above the floor, and the last is at or below T_min |
| Annealing.RunVisits | Simulated_Annealing.cpp:47-69 | the outer loop adds `StepsToFloor · Iterations(iterPerTemp)` tours to the visited record: `Iterations(iterPerTemp)` per block |
| Annealing.StartHolds | Simulated_Annealing.cpp:39-43 | after the shuffle, the start tour as both current and incumbent, with the incumbent distance its length, satisfies the search invariant and is the only tour visited |
| Annealing.RunFromStart | Simulated_Annealing.cpp:47-71 | from a start satisfying the invariant, the run ends with the incumbent a permutation, its distance its length and at most the start's length, and the run's guarantees hold |
| Annealing.RunGuaranteed | Simulated_Annealing.cpp:26-72 | the whole run: the incumbent is a permutation, `outBestDist` is its length and at most that of the shuffled start tour and of every tour that was current; the improvements run strictly down from the start's length to it; the temperatures tested are T0, T0·alpha, ..., each step from above the floor, the last at or below T_min; exactly 1 + StepsToFloor · Iterations(iterPerTemp) tours were current |
| Annealing.AnnealIteration | Simulated_Annealing.cpp:48-67 | one pass of the inner loop body takes the search after `iter` iterations to the search after `iter + 1` |
| Annealing.AnnealAtTemperature | Simulated_Annealing.cpp:48-67 | the inner `for` loop performs exactly `iterPerTemp` iterations (none when it is not positive) and its result is `Iterate` of the step at T |
| Annealing.AnnealerIsAnnealer | Simulated_Annealing.cpp:47-67 | the step family `Annealer` gives, at each temperature, exactly the iteration at that temperature |
| Annealing.AnnealCooling | Simulated_Annealing.cpp:47-69 | the outer `while` loop computes exactly `Run` from its start state and temperature |
| Annealing.StartTour | Simulated_Annealing.cpp:38-44 | the set-up produces exactly the search `Start`: the shuffled identity tour as current and incumbent, its length as the incumbent distance |
| Annealing.SimulatedAnnealing | Simulated_Annealing.cpp:26-72 | the outputs and the recorded run are exactly `AnnealingRun` for the given draws and test outcomes; the returned route is a permutation with `outBestDist` its length, at most the shuffled start's length; the improvements strictly decrease; the temperatures tested are the geometric schedule ending at or below T_min |

## Left out

- `main`: coordinate generation, timing and printing are input/output.
- `mt19937`, `random_device`, `uniform_real_distribution`, `hypot` and `exp` are foreign library calls. They are replaced by the oracles `rng` and `metropolis` and the edge length `len`. No claim is made about uniformity or about the quality of the tour found.
- Permutations.Shuffle: follows the textbook Fisher–Yates pass, descending from the last position with `rng() % (i + 1)` and one draw per position. libstdc++'s `std::shuffle` walks upwards, sometimes takes two positions from one draw, and `uniform_int_distribution` may reject and redraw, so it consumes a variable number of draws. Neither the positions drawn nor the index at which the inner loop's draws start match the real stream. The proven facts do not depend on them: the start tour is a permutation.
- Annealing.StepRules: the source always accepts a proposal of equal length, since `exp(0) = 1` exceeds every `randReal` value in [0, 1). The exception is T == 0, where `-0.0 / 0` is NaN and the test fails. The oracle `metropolis` may return false for delta == 0, so this is not promised; every proved property holds for every oracle.
- Floating point is modelled as exact reals; rounding, overflow and underflow are not modelled.
  - The model's requirement for the outer loop is `ReachesFloor(T0, alpha, T_min)`: some number of exact cooling steps takes T0 to or below T_min. Without it the real-arithmetic loop runs forever.
  - Cooling.PositiveFloorReached shows that the documented rate 0 < alpha < 1 with T_min > 0 meets this requirement. It is also met by runs outside that range that end, for example T0 = -1, alpha = 2, T_min = -10.
  - A run can end in floating point but not with exact reals when it relies on underflow. Within the documented range, this happens with T_min == 0, T0 > 0 and 0 < alpha <= 0.5: `T` underflows to 0, which the exact temperature never reaches. It also happens for any 0 < alpha < 1 on a build that flushes subnormals to zero. Such runs are excluded.
  - With T_min == 0 and 0.5 < alpha < 1, a subnormal `T` times alpha rounds back to the same subnormal. The source then loops forever, as the exact model does.
  - Rounding can also separate the two the other way. For every double alpha < 1, a normal `T` strictly drops, so the source can only get stuck among subnormals. With a subnormal positive floor, for example T_min = 1e-323 and alpha = 0.95, `T` sticks at about 4.4e-323, above the floor, and the source loops forever where the exact run ends.
  - With T_min < 0, T0 > 0 and 0 <= alpha < 1, the temperature never becomes negative, so both the source and the model loop forever and the run is excluded.
- SimulatedAnnealing: the number of cooling steps is `StepsToFloor`, the least count reaching the floor. Its closed form, `ceil(log(T_min / T0) / log(alpha))`, involves logarithms and is not stated.
- The model does not reject any input as invalid, because `simulatedAnnealing` checks none of its parameters. Besides `ReachesFloor`, its only requirement is the one without which the code divides by zero: `rng() % n` with n = 0 once the inner loop runs, so an empty point set requires `T0 <= T_min` or `iterPerTemp <= 0`.
- Sizes: `int n = route.size()` (Simulated_Annealing.cpp:16) and `int n = coords.size()` (Simulated_Annealing.cpp:34) are taken to be exact, so point sets and routes of more than 2^31 - 1 points are not modelled. For them the narrowing gives a wrong or negative `n`: with 2^32 + 3 points the source shuffles and searches tours of 3 points, and with 2^31 points `vector<int> current(n)` throws.
- Index conversion: the int/unsigned conversions in `rng() % n` need no model, because `n` is positive whenever they run and the result is below `n`.
