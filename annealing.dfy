/**
 * The annealing engine: starting from a shuffled tour, repeatedly propose
 * the tour with two positions exchanged, accept it when it is shorter or
 * when the Metropolis test says so, keep the shortest tour accepted so far
 * (the incumbent), and cool the temperature geometrically until it reaches
 * the floor.
 *
 * Randomness is an oracle: `rng` is the stream of integer draws and
 * `metropolis(k, delta, T)` is the outcome of the test
 * `randReal(rng) < exp(-delta / T)` made with draws k and k+1 (a uniform
 * double takes two 32-bit draws). Within the loops, draws are consumed in
 * the order `simulatedAnnealing` consumes them.
 *
 * `AnnealingRun` is the whole run as a function of the parameters and the
 * random outcomes; the method `SimulatedAnnealing` computes it with the
 * nested loops of `simulatedAnnealing`, and `RunGuaranteed` proves what it promises.
 */
module Annealing {
  import opened TourDistance
  import opened Permutations
  import opened Cooling

  /** The variables one iteration updates: current tour, incumbent, incumbent distance, next unused draw. */
  datatype State = State(current: seq<nat>, best: seq<nat>, bestDist: real, draw: nat)

  /**
   * A state with the record of the run so far: every tour that has been
   * current, and the incumbent distance at the start and after each improvement.
   */
  datatype Search = Search(state: State, visited: seq<seq<nat>>, improvements: seq<real>)

  /** The proposal made with draws k and k+1: current with positions rng(k) % n and rng(k+1) % n exchanged. */
  function Candidate(current: seq<nat>, rng: nat -> nat, k: nat): (r: seq<nat>)
    requires |current| > 0
    ensures |r| == |current|
  {
    Swapped(current, Pick(rng(k), |current|), Pick(rng(k + 1), |current|))
  }

  /** The acceptance rule: a shorter candidate always; otherwise whatever the test with draw k decides. */
  function Accepts(delta: real, T: real, metropolis: (nat, real, real) -> bool, k: nat): (accepted: bool)
    ensures delta < 0.0 ==> accepted
    ensures delta >= 0.0 ==> (accepted <==> metropolis(k, delta, T))
  {
    delta < 0.0 || metropolis(k, delta, T)
  }

  /** An exchange only moves indices around, so it keeps them pointing at coordinates. */
  lemma SwapKeepsValidRoute(coords: seq<Point>, s: seq<nat>, i: nat, j: nat)
    requires ValidRoute(coords, s)
    requires i < |s| && j < |s|
    ensures ValidRoute(coords, Swapped(s, i, j))
  {
  }

  /**
   * The proposal rearranges the current tour: it has the same entries, it
   * is a tour when the current tour is one, and its indices still name points.
   */
  lemma CandidateRearranges(coords: seq<Point>, current: seq<nat>, rng: nat -> nat, k: nat)
    requires |current| > 0
    ensures multiset(Candidate(current, rng, k)) == multiset(current)
    ensures IsTour(current, |current|) ==> IsTour(Candidate(current, rng, k), |current|)
    ensures ValidRoute(coords, current) ==> ValidRoute(coords, Candidate(current, rng, k))
  {
    var i, j := Pick(rng(k), |current|), Pick(rng(k + 1), |current|);
    SwapPermutes(current, i, j);
    if IsTour(current, |current|) {
      SwapKeepsTour(current, |current|, i, j);
    }
    if ValidRoute(coords, current) {
      SwapKeepsValidRoute(coords, current, i, j);
    }
  }

  /**
   * What one iteration from s to r keeps: the new current tour is a tour,
   * the incumbent distance never increases, the incumbent is either
   * unchanged or the new current tour with its length, and a new current
   * tour is never shorter than the incumbent.
   */
  ghost predicate StepFacts(coords: seq<Point>, len: (Point, Point) -> real, s: State, r: State) {
    && IsTour(r.current, |coords|)
    && r.bestDist <= s.bestDist
    && ((r.best == s.best && r.bestDist == s.bestDist)
        || (r.best == r.current && r.bestDist == TotalDistance(coords, len, r.current)))
    && (r.current == s.current || r.bestDist <= TotalDistance(coords, len, r.current))
  }

  /**
   * One iteration of the inner loop as a function of the state, with k the
   * draw counter:
   * - the proposal is the current tour with the positions drawn by k and
   *   k + 1 exchanged;
   * - it is accepted when it is shorter than the current tour (delta < 0),
   *   or else when the Metropolis test made with draws k + 2 and k + 3
   *   says so; an accepted proposal becomes the current tour;
   * - the incumbent is replaced by the proposal exactly when the proposal
   *   is accepted and strictly shorter than the incumbent;
   * - the iteration uses 2 draws when delta < 0 and 4 otherwise.
   * `simulatedAnnealing` is undefined without points or with an index naming no
   * point (`rng() % 0`, an out-of-range `coords[...]`); there the state is
   * left as it is.
   */
  ghost function Step(coords: seq<Point>, len: (Point, Point) -> real, T: real,
                      rng: nat -> nat, metropolis: (nat, real, real) -> bool, s: State): (r: State)
    ensures |s.current| == 0 || !ValidRoute(coords, s.current) ==> r == s
    ensures |s.current| > 0 ==> r.current == s.current || r.current == Candidate(s.current, rng, s.draw)
    ensures |r.current| == |s.current|
    ensures r.best == s.best || r.best == r.current
    ensures r.bestDist <= s.bestDist
    ensures r == s || r.draw == s.draw + 2 || r.draw == s.draw + 4
  {
    if |s.current| == 0 || !ValidRoute(coords, s.current) then s
    else
      CandidateRearranges(coords, s.current, rng, s.draw);
      var cand := Candidate(s.current, rng, s.draw);
      var candDist := TotalDistance(coords, len, cand);
      var delta := candDist - TotalDistance(coords, len, s.current);
      var draw := if delta < 0.0 then s.draw + 2 else s.draw + 4;
      if !Accepts(delta, T, metropolis, s.draw + 2) then State(s.current, s.best, s.bestDist, draw)
      else if candDist < s.bestDist then State(cand, cand, candDist, draw)
      else State(cand, s.best, s.bestDist, draw)
  }

  /** From a tour of the points, an iteration keeps `StepFacts`. */
  lemma StepKeepsFacts(coords: seq<Point>, len: (Point, Point) -> real, T: real,
                       rng: nat -> nat, metropolis: (nat, real, real) -> bool, s: State)
    requires IsTour(s.current, |coords|)
    ensures StepFacts(coords, len, s, Step(coords, len, T, rng, metropolis, s))
  {
    if |s.current| > 0 && ValidRoute(coords, s.current) {
      CandidateRearranges(coords, s.current, rng, s.draw);
    }
  }

  /**
   * The acceptance rules of an iteration from a tour whose indices name
   * points: a shorter proposal is always accepted, without the Metropolis
   * test; an accepted proposal becomes current, a rejected one changes
   * neither current nor incumbent; the incumbent becomes the proposal
   * exactly when the proposal is accepted and strictly shorter than it;
   * 2 draws are used when the proposal is shorter and 4 otherwise.
   */
  lemma StepRules(coords: seq<Point>, len: (Point, Point) -> real, T: real,
                  rng: nat -> nat, metropolis: (nat, real, real) -> bool, s: State)
    requires |s.current| > 0 && ValidRoute(coords, s.current)
    ensures var cand := Candidate(s.current, rng, s.draw);
            && ValidRoute(coords, cand)
            && var r := Step(coords, len, T, rng, metropolis, s);
               var candDist := TotalDistance(coords, len, cand);
               var delta := candDist - TotalDistance(coords, len, s.current);
               var accepted := Accepts(delta, T, metropolis, s.draw + 2);
               && (delta < 0.0 ==> accepted && r.draw == s.draw + 2)
               && (delta >= 0.0 ==> r.draw == s.draw + 4 && (accepted <==> metropolis(s.draw + 2, delta, T)))
               && (accepted ==> r.current == cand)
               && (!accepted ==> r.current == s.current)
               && (accepted && candDist < s.bestDist ==> r.best == cand && r.bestDist == candDist)
               && (!(accepted && candDist < s.bestDist) ==> r.best == s.best && r.bestDist == s.bestDist)
  {
    CandidateRearranges(coords, s.current, rng, s.draw);
  }

  /**
   * One iteration of the inner loop: propose a neighbour, measure both tours,
   * accept or reject, and replace the incumbent when an accepted candidate
   * is strictly shorter than it. Returns the next current tour, the
   * incumbent, its distance, and the next unused draw: exactly `Step`.
   */
  method AnnealStep(coords: seq<Point>, len: (Point, Point) -> real, current: seq<nat>,
                    best: seq<nat>, bestDist: real, T: real,
                    rng: nat -> nat, metropolis: (nat, real, real) -> bool, draw: nat)
    returns (next: seq<nat>, newBest: seq<nat>, newBestDist: real, nextDraw: nat)
    requires |current| == |coords| > 0
    requires ValidRoute(coords, current)
    ensures State(next, newBest, newBestDist, nextDraw)
         == Step(coords, len, T, rng, metropolis, State(current, best, bestDist, draw))
    ensures |next| == |current| && ValidRoute(coords, next)
  {
    var n := |coords|;
    var candidate := current;
    var i := Pick(rng(draw), n);
    var j := Pick(rng(draw + 1), n);
    candidate := Swapped(candidate, i, j);
    SwapKeepsValidRoute(coords, current, i, j);
    nextDraw := draw + 2;

    var currDist := ComputeTotalDistance(coords, len, current);
    var candDist := ComputeTotalDistance(coords, len, candidate);
    var delta := candDist - currDist;

    var accepted := delta < 0.0;
    if !accepted {
      // a uniform double in [0, 1) takes two 32-bit draws
      accepted := metropolis(nextDraw, delta, T);
      nextDraw := nextDraw + 2;
    }
    next, newBest, newBestDist := current, best, bestDist;
    if accepted {
      next := candidate;
      if candDist < bestDist {
        newBestDist := candDist;
        newBest := candidate;
      }
    }
  }

  /** One iteration with its record: the new current tour, and the new incumbent distance when it dropped. */
  ghost function Advance(step: State -> State, p: Search): (r: Search)
    ensures r.state == step(p.state)
    ensures |r.visited| == |p.visited| + 1 && r.visited[|p.visited|] == r.state.current
    ensures |r.improvements| <= |p.improvements| + 1
  {
    var q := step(p.state);
    Search(q, p.visited + [q.current],
           if q.bestDist < p.state.bestDist then p.improvements + [q.bestDist] else p.improvements)
  }

  /** The inner loop: m iterations of step from s. */
  ghost function Iterate(step: State -> State, s: Search, m: nat): (r: Search)
    ensures |r.visited| == |s.visited| + m
    decreases m
  {
    if m == 0 then s else Advance(step, Iterate(step, s, m - 1))
  }

  /** One more iteration appends one step to the inner loop. */
  lemma IterateNext(step: State -> State, s: Search, m: nat)
    ensures Iterate(step, s, m + 1) == Advance(step, Iterate(step, s, m))
  {
  }

  /** The number of inner iterations per temperature: none when iterPerTemp <= 0. */
  function Iterations(iterPerTemp: int): nat {
    if iterPerTemp > 0 then iterPerTemp else 0
  }

  /** The annealing step at every temperature, as a family of step functions. */
  ghost function Annealer(coords: seq<Point>, len: (Point, Point) -> real,
                          rng: nat -> nat, metropolis: (nat, real, real) -> bool): real -> (State -> State)
  {
    T => (s => Step(coords, len, T, rng, metropolis, s))
  }

  /**
   * The outer loop from temperature T, with stepAt(T) the step at
   * temperature T: while T is above the floor, run the inner loop at T,
   * then cool. Returns the final search and the temperatures tested
   * (`temps` ends with T).
   */
  ghost function Run(stepAt: real -> (State -> State), alpha: real, Tmin: real, iterPerTemp: int,
                     T: real, s: Search, temps: seq<real>): (r: (Search, seq<real>))
    requires ReachesFloor(T, alpha, Tmin)
    ensures |r.1| == |temps| + StepsToFloor(T, alpha, Tmin)
    ensures |temps| > 0 ==> r.1[0] == temps[0]
    decreases StepsToFloor(T, alpha, Tmin)
  {
    if T <= Tmin then (s, temps)
    else
      CoolingShift(T, alpha, Tmin);
      var s' := Iterate(stepAt(T), s, Iterations(iterPerTemp));
      Run(stepAt, alpha, Tmin, iterPerTemp, Cool(T, alpha), s', temps + [Cool(T, alpha)])
  }

  /** Above the floor, the outer loop runs the inner loop at T and goes on from the cooled temperature. */
  lemma RunUnfold(stepAt: real -> (State -> State), alpha: real, Tmin: real, iterPerTemp: int,
                  T: real, s: Search, temps: seq<real>)
    requires ReachesFloor(T, alpha, Tmin) && T > Tmin
    ensures ReachesFloor(Cool(T, alpha), alpha, Tmin)
    ensures Run(stepAt, alpha, Tmin, iterPerTemp, T, s, temps)
         == Run(stepAt, alpha, Tmin, iterPerTemp, Cool(T, alpha),
                Iterate(stepAt(T), s, Iterations(iterPerTemp)), temps + [Cool(T, alpha)])
  {
    CoolingShift(T, alpha, Tmin);
  }

  /** The search right after the shuffle: the start tour is current and incumbent, and the only record. */
  ghost function Start(coords: seq<Point>, len: (Point, Point) -> real, rng: nat -> nat): (r: Search)
    ensures IsTour(r.state.current, |coords|) && r.state.best == r.state.current
    ensures r.visited == [r.state.current] && r.improvements == [r.state.bestDist]
  {
    var n := |coords|;
    var start := Shuffled(n, rng);
    var startDist := TotalDistance(coords, len, start);
    Search(State(start, start, startDist, if n == 0 then 0 else n - 1), [start], [startDist])
  }

  /** The whole run with these parameters and random outcomes: the final search and the temperatures tested. */
  ghost function AnnealingRun(coords: seq<Point>, len: (Point, Point) -> real,
                              T0: real, alpha: real, Tmin: real, iterPerTemp: int,
                              rng: nat -> nat, metropolis: (nat, real, real) -> bool): (r: (Search, seq<real>))
    requires ReachesFloor(T0, alpha, Tmin)
    ensures |r.1| == StepsToFloor(T0, alpha, Tmin) + 1 && r.1[0] == T0
  {
    Run(Annealer(coords, len, rng, metropolis), alpha, Tmin, iterPerTemp, T0, Start(coords, len, rng), [T0])
  }

  /**
   * What holds of the search between iterations, for a run that started
   * from tour `start`: current and incumbent are tours, the incumbent
   * distance is the incumbent's length and is no longer than any tour that
   * has been current, and the recorded incumbent distances start with the
   * length of `start`, strictly decrease and end with the present one.
   */
  ghost predicate SearchInvariant(coords: seq<Point>, len: (Point, Point) -> real, start: seq<nat>,
                                  current: seq<nat>, best: seq<nat>, bestDist: real,
                                  visited: seq<seq<nat>>, improvements: seq<real>)
  {
    && IsTour(start, |coords|)
    && IsTour(current, |coords|)
    && IsTour(best, |coords|)
    && bestDist == TotalDistance(coords, len, best)
    && |visited| >= 1 && visited[0] == start && visited[|visited| - 1] == current && best in visited
    && (forall t :: t in visited ==> IsTour(t, |coords|) && bestDist <= TotalDistance(coords, len, t))
    && |improvements| >= 1 && improvements[|improvements| - 1] == bestDist
    && improvements[0] == TotalDistance(coords, len, start)
    && (forall i, j :: 0 <= i < j < |improvements| ==> improvements[j] < improvements[i])
  }

  /** The search invariant of a search value. */
  ghost predicate Holds(coords: seq<Point>, len: (Point, Point) -> real, start: seq<nat>, s: Search) {
    SearchInvariant(coords, len, start, s.state.current, s.state.best, s.state.bestDist, s.visited, s.improvements)
  }

  /**
   * What a finished run from `start` guarantees: the search invariant with
   * the last recorded tour as the current one.
   */
  ghost predicate RunGuarantees(coords: seq<Point>, len: (Point, Point) -> real, start: seq<nat>,
                                best: seq<nat>, bestDist: real,
                                visited: seq<seq<nat>>, improvements: seq<real>)
  {
    |visited| >= 1 && SearchInvariant(coords, len, start, visited[|visited| - 1], best, bestDist, visited, improvements)
  }

  /** Every iteration of step from a tour of the points keeps `StepFacts`. */
  ghost predicate StepLaw(coords: seq<Point>, len: (Point, Point) -> real, step: State -> State) {
    forall s: State {:trigger step(s)} :: IsTour(s.current, |coords|) ==> StepFacts(coords, len, s, step(s))
  }

  /** Every step of the family obeys the step law. */
  ghost predicate FamilyLaw(coords: seq<Point>, len: (Point, Point) -> real, stepAt: real -> (State -> State)) {
    forall T: real {:trigger stepAt(T)} :: StepLaw(coords, len, stepAt(T))
  }

  /** The annealing step obeys the step law at every temperature. */
  lemma AnnealerLaw(coords: seq<Point>, len: (Point, Point) -> real,
                    rng: nat -> nat, metropolis: (nat, real, real) -> bool)
    ensures FamilyLaw(coords, len, Annealer(coords, len, rng, metropolis))
  {
    var stepAt := Annealer(coords, len, rng, metropolis);
    forall T: real, s: State | IsTour(s.current, |coords|)
      ensures StepFacts(coords, len, s, stepAt(T)(s))
    {
      StepKeepsFacts(coords, len, T, rng, metropolis, s);
    }
  }

  /** One iteration keeps the search invariant, with the new current tour recorded and any improvement logged. */
  lemma StepKeepsInvariant(coords: seq<Point>, len: (Point, Point) -> real, step: State -> State,
                           start: seq<nat>, p: Search)
    requires Holds(coords, len, start, p)
    requires StepFacts(coords, len, p.state, step(p.state))
    ensures Holds(coords, len, start, Advance(step, p))
  {
    var q := step(p.state);
    var r := Advance(step, p);
    forall t | t in r.visited
      ensures IsTour(t, |coords|) && q.bestDist <= TotalDistance(coords, len, t)
    {
      if t != q.current {
        assert t in p.visited;
      }
    }
    assert q.best in r.visited by {
      if q.best == p.state.best {
        assert p.state.best in p.visited;
      }
    }
  }

  /** The inner loop keeps the search invariant and records one tour per iteration. */
  lemma {:induction false} IterateKeepsInvariant(coords: seq<Point>, len: (Point, Point) -> real,
                                                 step: State -> State, start: seq<nat>, s: Search, m: nat)
    requires StepLaw(coords, len, step)
    requires Holds(coords, len, start, s)
    ensures Holds(coords, len, start, Iterate(step, s, m))
    ensures |Iterate(step, s, m).visited| == |s.visited| + m
  {
    if m > 0 {
      var p := Iterate(step, s, m - 1);
      IterateKeepsInvariant(coords, len, step, start, s, m - 1);
      StepKeepsInvariant(coords, len, step, start, p);
    }
  }

  /** One block of m iterations followed by k - 1 more blocks is k blocks. */
  lemma BlocksOfIterations(k: nat, m: nat)
    requires k >= 1
    ensures m + (k - 1) * m == k * m
  {
  }

  /**
   * The outer loop keeps the search invariant, extends the cooling
   * schedule until the floor, with one temperature per cooling step, and
   * records iterPerTemp tours per step.
   */
  lemma {:induction false} RunKeepsInvariant(coords: seq<Point>, len: (Point, Point) -> real,
                                             stepAt: real -> (State -> State),
                                             T0: real, alpha: real, Tmin: real, iterPerTemp: int,
                                             start: seq<nat>, T: real, s: Search, temps: seq<real>)
    requires FamilyLaw(coords, len, stepAt)
    requires ReachesFloor(T, alpha, Tmin)
    requires Holds(coords, len, start, s)
    requires CoolingSchedule(temps, T0, alpha, Tmin) && temps[|temps| - 1] == T
    ensures var r := Run(stepAt, alpha, Tmin, iterPerTemp, T, s, temps);
            && Holds(coords, len, start, r.0)
            && CoolingSchedule(r.1, T0, alpha, Tmin) && r.1[|r.1| - 1] <= Tmin
            && |r.1| == |temps| + StepsToFloor(T, alpha, Tmin)
            && |r.0.visited| == |s.visited| + StepsToFloor(T, alpha, Tmin) * Iterations(iterPerTemp)
  {
    RunHolds(coords, len, stepAt, alpha, Tmin, iterPerTemp, start, T, s, temps);
    RunSchedule(stepAt, T0, alpha, Tmin, iterPerTemp, T, s, temps);
    RunVisits(stepAt, alpha, Tmin, iterPerTemp, T, s, temps);
  }

  /** The outer loop keeps the search invariant. */
  lemma {:induction false} RunHolds(coords: seq<Point>, len: (Point, Point) -> real,
                                    stepAt: real -> (State -> State), alpha: real, Tmin: real, iterPerTemp: int,
                                    start: seq<nat>, T: real, s: Search, temps: seq<real>)
    requires FamilyLaw(coords, len, stepAt)
    requires ReachesFloor(T, alpha, Tmin)
    requires Holds(coords, len, start, s)
    ensures Holds(coords, len, start, Run(stepAt, alpha, Tmin, iterPerTemp, T, s, temps).0)
    decreases StepsToFloor(T, alpha, Tmin)
  {
    if T > Tmin {
      CoolingShift(T, alpha, Tmin);
      var m := Iterations(iterPerTemp);
      IterateKeepsInvariant(coords, len, stepAt(T), start, s, m);
      RunHolds(coords, len, stepAt, alpha, Tmin, iterPerTemp, start, Cool(T, alpha),
               Iterate(stepAt(T), s, m), temps + [Cool(T, alpha)]);
      RunUnfold(stepAt, alpha, Tmin, iterPerTemp, T, s, temps);
    }
  }

  /**
   * The temperatures the outer loop tests extend a cooling schedule, and
   * the last one is at or below the floor.
   */
  lemma {:induction false} RunSchedule(stepAt: real -> (State -> State),
                                       T0: real, alpha: real, Tmin: real, iterPerTemp: int,
                                       T: real, s: Search, temps: seq<real>)
    requires ReachesFloor(T, alpha, Tmin)
    requires CoolingSchedule(temps, T0, alpha, Tmin) && temps[|temps| - 1] == T
    ensures var ts := Run(stepAt, alpha, Tmin, iterPerTemp, T, s, temps).1;
            CoolingSchedule(ts, T0, alpha, Tmin) && ts[|ts| - 1] <= Tmin
    decreases StepsToFloor(T, alpha, Tmin)
  {
    if T > Tmin {
      CoolingShift(T, alpha, Tmin);
      CoolingExtends(temps, T0, alpha, Tmin);
      var m := Iterations(iterPerTemp);
      RunSchedule(stepAt, T0, alpha, Tmin, iterPerTemp, Cool(T, alpha),
                  Iterate(stepAt(T), s, m), temps + [Cool(T, alpha)]);
      RunUnfold(stepAt, alpha, Tmin, iterPerTemp, T, s, temps);
    }
  }

  /** The outer loop runs `Iterations(iterPerTemp)` iterations in each of its `StepsToFloor` blocks. */
  lemma {:induction false} RunVisits(stepAt: real -> (State -> State), alpha: real, Tmin: real, iterPerTemp: int,
                                     T: real, s: Search, temps: seq<real>)
    requires ReachesFloor(T, alpha, Tmin)
    ensures |Run(stepAt, alpha, Tmin, iterPerTemp, T, s, temps).0.visited|
         == |s.visited| + StepsToFloor(T, alpha, Tmin) * Iterations(iterPerTemp)
    decreases StepsToFloor(T, alpha, Tmin)
  {
    var steps := StepsToFloor(T, alpha, Tmin);
    if T <= Tmin {
      assert CooledTimes(T, alpha, 0) == T;
    } else {
      CoolingShift(T, alpha, Tmin);
      var m := Iterations(iterPerTemp);
      RunVisits(stepAt, alpha, Tmin, iterPerTemp, Cool(T, alpha), Iterate(stepAt(T), s, m), temps + [Cool(T, alpha)]);
      RunUnfold(stepAt, alpha, Tmin, iterPerTemp, T, s, temps);
      BlocksOfIterations(steps, m);
    }
  }

  /**
   * What a run from the tour start promises, ending in the search f after
   * testing the temperatures temps: the incumbent is a tour, its distance
   * is its length and at most the start's, the run's guarantees hold, the
   * temperatures form a cooling schedule from T0 ending at or below the
   * floor after exactly `StepsToFloor` cooling steps, and every block made
   * `iterPerTemp` iterations.
   */
  ghost predicate RunOutcome(coords: seq<Point>, len: (Point, Point) -> real, start: seq<nat>,
                             T0: real, alpha: real, Tmin: real, iterPerTemp: int, f: Search, temps: seq<real>)
    requires ReachesFloor(T0, alpha, Tmin)
  {
    && IsTour(start, |coords|) && IsTour(f.state.best, |coords|)
    && f.state.bestDist == TotalDistance(coords, len, f.state.best)
    && f.state.bestDist <= TotalDistance(coords, len, start)
    && RunGuarantees(coords, len, start, f.state.best, f.state.bestDist, f.visited, f.improvements)
    && CoolingSchedule(temps, T0, alpha, Tmin) && temps[|temps| - 1] <= Tmin
    && |temps| == StepsToFloor(T0, alpha, Tmin) + 1
    && |f.visited| == 1 + StepsToFloor(T0, alpha, Tmin) * Iterations(iterPerTemp)
  }

  /**
   * What every run promises: the incumbent is a tour, its distance is its
   * length, and it is no longer than any tour that was current, the
   * shuffled start tour first among them; the improvements strictly
   * decrease from the start's length to it; the temperatures tested form
   * the geometric schedule from T0 down to the floor, one per cooling step
   * and one more; and every cooling step ran iterPerTemp iterations.
   */
  lemma RunGuaranteed(coords: seq<Point>, len: (Point, Point) -> real,
                      T0: real, alpha: real, Tmin: real, iterPerTemp: int,
                      rng: nat -> nat, metropolis: (nat, real, real) -> bool)
    requires ReachesFloor(T0, alpha, Tmin)
    ensures var (f, temps) := AnnealingRun(coords, len, T0, alpha, Tmin, iterPerTemp, rng, metropolis);
            RunOutcome(coords, len, Shuffled(|coords|, rng), T0, alpha, Tmin, iterPerTemp, f, temps)
  {
    StartHolds(coords, len, rng);
    AnnealerLaw(coords, len, rng, metropolis);
    RunFromStart(coords, len, Annealer(coords, len, rng, metropolis), T0, alpha, Tmin, iterPerTemp,
                 Shuffled(|coords|, rng), Start(coords, len, rng));
  }

  /** The search right after the shuffle satisfies the search invariant for the shuffled start tour. */
  lemma StartHolds(coords: seq<Point>, len: (Point, Point) -> real, rng: nat -> nat)
    ensures Holds(coords, len, Shuffled(|coords|, rng), Start(coords, len, rng))
    ensures Start(coords, len, rng).visited == [Shuffled(|coords|, rng)]
  {
  }

  /**
   * The guarantees of a run of any step family obeying the annealing laws,
   * from a search that starts at the tour start and satisfies the invariant.
   */
  lemma RunFromStart(coords: seq<Point>, len: (Point, Point) -> real, stepAt: real -> (State -> State),
                     T0: real, alpha: real, Tmin: real, iterPerTemp: int, start: seq<nat>, s: Search)
    requires FamilyLaw(coords, len, stepAt) && ReachesFloor(T0, alpha, Tmin)
    requires Holds(coords, len, start, s) && s.visited == [start]
    ensures var (f, temps) := Run(stepAt, alpha, Tmin, iterPerTemp, T0, s, [T0]);
            RunOutcome(coords, len, start, T0, alpha, Tmin, iterPerTemp, f, temps)
  {
    RunKeepsInvariant(coords, len, stepAt, T0, alpha, Tmin, iterPerTemp, start, T0, s, [T0]);
    var (f, temps) := Run(stepAt, alpha, Tmin, iterPerTemp, T0, s, [T0]);
    assert start in f.visited;
  }

  /** step is the annealing step at temperature T, at every state. */
  ghost predicate IsAnnealStep(step: State -> State, coords: seq<Point>, len: (Point, Point) -> real, T: real,
                               rng: nat -> nat, metropolis: (nat, real, real) -> bool)
  {
    forall s: State {:trigger Step(coords, len, T, rng, metropolis, s)} :: step(s) == Step(coords, len, T, rng, metropolis, s)
  }

  /**
   * The body of the inner loop: one iteration from the search after iter
   * iterations of step, recording the new current tour and any drop of
   * the incumbent distance. The result is the search after iter + 1
   * iterations.
   */
  method AnnealIteration(coords: seq<Point>, len: (Point, Point) -> real, T: real,
                         rng: nat -> nat, metropolis: (nat, real, real) -> bool,
                         ghost step: State -> State, ghost s0: Search, ghost iter: nat,
                         current: seq<nat>, best: seq<nat>, bestDist: real, draw: nat,
                         ghost visited: seq<seq<nat>>, ghost improvements: seq<real>)
    returns (current': seq<nat>, best': seq<nat>, bestDist': real, draw': nat,
             ghost visited': seq<seq<nat>>, ghost improvements': seq<real>)
    requires IsAnnealStep(step, coords, len, T, rng, metropolis)
    requires |current| == |coords| > 0 && ValidRoute(coords, current)
    requires Search(State(current, best, bestDist, draw), visited, improvements) == Iterate(step, s0, iter)
    ensures |current'| == |coords| && ValidRoute(coords, current')
    ensures Search(State(current', best', bestDist', draw'), visited', improvements') == Iterate(step, s0, iter + 1)
  {
    current', best', bestDist', draw' := AnnealStep(coords, len, current, best, bestDist, T, rng, metropolis, draw);
    improvements' := if bestDist' < bestDist then improvements + [bestDist'] else improvements;
    visited' := visited + [current'];
    IterateNext(step, s0, iter);
    assert step(State(current, best, bestDist, draw)) == State(current', best', bestDist', draw');
  }

  /**
   * The inner loop: iterPerTemp iterations of the annealing step at
   * temperature T. The result is `Iterate` of that step from the given search.
   */
  method AnnealAtTemperature(coords: seq<Point>, len: (Point, Point) -> real, T: real, iterPerTemp: int,
                             rng: nat -> nat, metropolis: (nat, real, real) -> bool, ghost step: State -> State,
                             current: seq<nat>, best: seq<nat>, bestDist: real, draw: nat,
                             ghost visited: seq<seq<nat>>, ghost improvements: seq<real>)
    returns (current': seq<nat>, best': seq<nat>, bestDist': real, draw': nat,
             ghost visited': seq<seq<nat>>, ghost improvements': seq<real>)
    requires IsAnnealStep(step, coords, len, T, rng, metropolis)
    requires |coords| > 0 || iterPerTemp <= 0
    requires |current| == |coords| && ValidRoute(coords, current)
    ensures |current'| == |coords| && ValidRoute(coords, current')
    ensures Search(State(current', best', bestDist', draw'), visited', improvements')
         == Iterate(step, Search(State(current, best, bestDist, draw), visited, improvements), Iterations(iterPerTemp))
  {
    ghost var s0 := Search(State(current, best, bestDist, draw), visited, improvements);
    current', best', bestDist', draw', visited', improvements' := current, best, bestDist, draw, visited, improvements;
    var iter := 0;
    while iter < iterPerTemp
      invariant 0 <= iter <= Iterations(iterPerTemp)
      invariant |current'| == |coords| && ValidRoute(coords, current')
      invariant Search(State(current', best', bestDist', draw'), visited', improvements') == Iterate(step, s0, iter)
    {
      current', best', bestDist', draw', visited', improvements' :=
        AnnealIteration(coords, len, T, rng, metropolis, step, s0, iter,
                        current', best', bestDist', draw', visited', improvements');
      iter := iter + 1;
    }
    assert iter == Iterations(iterPerTemp);
  }

  /** stepAt(T) is the annealing step at temperature T, for every temperature. */
  ghost predicate IsAnnealer(stepAt: real -> (State -> State), coords: seq<Point>, len: (Point, Point) -> real,
                             rng: nat -> nat, metropolis: (nat, real, real) -> bool)
  {
    forall T: real {:trigger stepAt(T)} :: IsAnnealStep(stepAt(T), coords, len, T, rng, metropolis)
  }

  /** `Annealer` gives the annealing step at every temperature. */
  lemma AnnealerIsAnnealer(coords: seq<Point>, len: (Point, Point) -> real,
                           rng: nat -> nat, metropolis: (nat, real, real) -> bool)
    ensures IsAnnealer(Annealer(coords, len, rng, metropolis), coords, len, rng, metropolis)
  {
  }

  /**
   * The outer loop: blocks of iterations at temperature T, each followed by
   * a cooling step, while T stays above the floor. The result, together
   * with the temperatures tested, is `Run` of the annealing steps from the
   * given search.
   */
  method AnnealCooling(coords: seq<Point>, len: (Point, Point) -> real,
                       T: real, alpha: real, Tmin: real, iterPerTemp: int,
                       rng: nat -> nat, metropolis: (nat, real, real) -> bool,
                       ghost stepAt: real -> (State -> State),
                       current: seq<nat>, best: seq<nat>, bestDist: real, draw: nat,
                       ghost visited: seq<seq<nat>>, ghost improvements: seq<real>, ghost temps: seq<real>)
    returns (best': seq<nat>, bestDist': real,
             ghost final: Search, ghost temps': seq<real>)
    requires IsAnnealer(stepAt, coords, len, rng, metropolis)
    requires ReachesFloor(T, alpha, Tmin)
    requires |coords| > 0 || T <= Tmin || iterPerTemp <= 0
    requires |current| == |coords| && ValidRoute(coords, current)
    ensures best' == final.state.best && bestDist' == final.state.bestDist
    ensures (final, temps')
         == Run(stepAt, alpha, Tmin, iterPerTemp, T, Search(State(current, best, bestDist, draw), visited, improvements), temps)
  {
    var T', current', draw' := T, current, draw;
    best', bestDist' := best, bestDist;
    ghost var visited', improvements' := visited, improvements;
    temps' := temps;
    while T' > Tmin
      invariant ReachesFloor(T', alpha, Tmin)
      invariant |coords| > 0 || iterPerTemp <= 0 || T' <= Tmin
      invariant |current'| == |coords| && ValidRoute(coords, current')
      invariant Run(stepAt, alpha, Tmin, iterPerTemp, T', Search(State(current', best', bestDist', draw'), visited', improvements'), temps')
             == Run(stepAt, alpha, Tmin, iterPerTemp, T, Search(State(current, best, bestDist, draw), visited, improvements), temps)
      decreases StepsToFloor(T', alpha, Tmin)
    {
      ghost var s0 := Search(State(current', best', bestDist', draw'), visited', improvements');
      current', best', bestDist', draw', visited', improvements' :=
        AnnealAtTemperature(coords, len, T', iterPerTemp, rng, metropolis, stepAt(T'),
                            current', best', bestDist', draw', visited', improvements');
      RunUnfold(stepAt, alpha, Tmin, iterPerTemp, T', s0, temps');
      T' := Cool(T', alpha);
      temps' := temps' + [T'];
    }
    final := Search(State(current', best', bestDist', draw'), visited', improvements');
  }

  /**
   * The set-up before the loops: the identity tour, shuffled, and its
   * length. The result is the search `Start`.
   */
  method StartTour(coords: seq<Point>, len: (Point, Point) -> real, rng: nat -> nat)
    returns (start: seq<nat>, startDist: real, draw: nat)
    ensures |start| == |coords| && ValidRoute(coords, start)
    ensures Search(State(start, start, startDist, draw), [start], [startDist]) == Start(coords, len, rng)
  {
    var n := |coords|;
    start := Iota(n);
    start, draw := Shuffle(start, rng, 0);
    assert start == Shuffled(n, rng);
    startDist := ComputeTotalDistance(coords, len, start);
  }

  /**
   * A complete annealing run. The outputs are the incumbent tour and its
   * distance; the ghost outputs record the run: the temperatures the outer
   * loop tested, every tour that was current, and the incumbent distance
   * at the start and after each improvement. All of them are those of
   * `AnnealingRun`, so `RunGuaranteed` applies to them.
   */
  method SimulatedAnnealing(coords: seq<Point>, len: (Point, Point) -> real,
                            T0: real, alpha: real, Tmin: real, iterPerTemp: int,
                            rng: nat -> nat, metropolis: (nat, real, real) -> bool)
    returns (best: seq<nat>, bestDist: real,
             ghost temps: seq<real>, ghost visited: seq<seq<nat>>, ghost improvements: seq<real>)
    requires ReachesFloor(T0, alpha, Tmin)
    requires |coords| > 0 || T0 <= Tmin || iterPerTemp <= 0
    ensures var (f, ts) := AnnealingRun(coords, len, T0, alpha, Tmin, iterPerTemp, rng, metropolis);
            && best == f.state.best && bestDist == f.state.bestDist
            && visited == f.visited && improvements == f.improvements && temps == ts
    ensures IsTour(best, |coords|) && bestDist == TotalDistance(coords, len, best)
    ensures bestDist <= TotalDistance(coords, len, Shuffled(|coords|, rng))
    ensures RunGuarantees(coords, len, Shuffled(|coords|, rng), best, bestDist, visited, improvements)
    ensures CoolingSchedule(temps, T0, alpha, Tmin) && temps[|temps| - 1] <= Tmin
  {
    RunGuaranteed(coords, len, T0, alpha, Tmin, iterPerTemp, rng, metropolis);
    var current, startDist, draw := StartTour(coords, len, rng);
    AnnealerIsAnnealer(coords, len, rng, metropolis);
    ghost var final;
    best, bestDist, final, temps :=
      AnnealCooling(coords, len, T0, alpha, Tmin, iterPerTemp, rng, metropolis, Annealer(coords, len, rng, metropolis),
                    current, current, startDist, draw, [current], [startDist], [T0]);
    visited, improvements := final.visited, final.improvements;
  }
}
