/**
 * The trilateration solver: a gradient descent of at most 100 iterations
 * from an initial guess. The arithmetic of one iteration (the gradient of
 * the squared distance residuals, the square roots, the 0.1 step and the
 * 0.001 convergence threshold) is floating-point work and is supplied as
 * the opaque function `step`; what is modelled is the iteration itself.
 */
module Solver {
  import opened Records

  /** The iteration cap of the descent. */
  const MaxIterations: nat := 100

  /**
   * One descent iteration over the given anchors: the moved candidate and
   * whether the gradient magnitude fell below the convergence threshold.
   */
  type Step = (seq<Node>, Position) -> (Position, bool)

  /** The candidate the descent ends on and the number of iterations it ran. */
  datatype Outcome = Outcome(position: Position, iterations: nat)

  /**
   * The descent from `pos` with at most `fuel` iterations left. The
   * candidate is moved before the convergence test, so a converged run
   * returns the moved candidate.
   */
  function Run(step: Step, anchors: seq<Node>, pos: Position, fuel: nat): (r: Outcome)
    ensures r.iterations <= fuel
    ensures fuel > 0 ==> r.iterations >= 1
    decreases fuel
  {
    if fuel == 0 then Outcome(pos, 0)
    else
      var (next, converged) := step(anchors, pos);
      if converged then Outcome(next, 1)
      else
        var rest := Run(step, anchors, next, fuel - 1);
        Outcome(rest.position, rest.iterations + 1)
  }

  /** The candidate after `k` descent iterations from `pos`, ignoring convergence. */
  function Iterate(step: Step, anchors: seq<Node>, pos: Position, k: nat): Position
    decreases k
  {
    if k == 0 then pos else Iterate(step, anchors, step(anchors, pos).0, k - 1)
  }

  /**
   * The position the solver returns for `anchors` from `guess` (the call
   * at server/server.go:284): the candidate after between 1 and 100
   * iterations of the descent.
   */
  function Solve(step: Step, anchors: seq<Node>, guess: Position): (r: Position)
    ensures exists k :: 1 <= k <= MaxIterations && r == Iterate(step, anchors, guess, k)
  {
    RunFollowsIterates(step, anchors, guess, MaxIterations);
    Run(step, anchors, guess, MaxIterations).position
  }

  /**
   * The descent loop (`trilateratePosition`): runs until an iteration
   * reports convergence or the cap is reached, and accepts the last
   * candidate either way.
   */
  method Trilaterate(anchors: seq<Node>, guess: Position, step: Step) returns (r: Outcome)
    ensures r == Run(step, anchors, guess, MaxIterations)
    ensures 1 <= r.iterations <= MaxIterations
  {
    var position := guess;
    var iteration := 0;
    var converged := false;
    while iteration < MaxIterations && !converged
      invariant 0 <= iteration <= MaxIterations
      invariant converged ==> iteration >= 1 && Run(step, anchors, guess, MaxIterations) == Outcome(position, iteration)
      invariant !converged ==>
        var rest := Run(step, anchors, position, MaxIterations - iteration);
        Run(step, anchors, guess, MaxIterations) == Outcome(rest.position, rest.iterations + iteration)
    {
      var (next, done) := step(anchors, position);
      position := next;
      converged := done;
      iteration := iteration + 1;
    }
    r := Outcome(position, iteration);
  }

  /**
   * A run of `n` iterations returns the `n`-th iterate, no iteration before
   * the last reported convergence, and a run that stopped before the cap
   * stopped because its last iteration did.
   */
  lemma {:induction false} RunFollowsIterates(step: Step, anchors: seq<Node>, pos: Position, fuel: nat)
    ensures var n := Run(step, anchors, pos, fuel).iterations;
      && Run(step, anchors, pos, fuel).position == Iterate(step, anchors, pos, n)
      && (forall k :: 0 <= k < n - 1 ==> !step(anchors, Iterate(step, anchors, pos, k)).1)
      && (n < fuel ==> n >= 1 && step(anchors, Iterate(step, anchors, pos, n - 1)).1)
    decreases fuel
  {
    if fuel > 0 && !step(anchors, pos).1 {
      var next := step(anchors, pos).0;
      RunFollowsIterates(step, anchors, next, fuel - 1);
      var m := Run(step, anchors, next, fuel - 1).iterations;
      assert Iterate(step, anchors, pos, m + 1) == Iterate(step, anchors, next, m);
      assert m >= 1 ==> Iterate(step, anchors, pos, m) == Iterate(step, anchors, next, m - 1);
      forall k | 0 <= k < m
        ensures !step(anchors, Iterate(step, anchors, pos, k)).1
      {
        if k > 0 {
          assert Iterate(step, anchors, pos, k) == Iterate(step, anchors, next, k - 1);
        }
      }
    }
  }

  /**
   * When no iteration along the run converges, the descent runs to the cap
   * and returns the last candidate: non-convergence is accepted silently.
   */
  lemma {:induction false} NoConvergenceRunsToCap(step: Step, anchors: seq<Node>, pos: Position, fuel: nat)
    requires forall k :: 0 <= k < fuel ==> !step(anchors, Iterate(step, anchors, pos, k)).1
    ensures Run(step, anchors, pos, fuel) == Outcome(Iterate(step, anchors, pos, fuel), fuel)
    decreases fuel
  {
    if fuel > 0 {
      var next := step(anchors, pos).0;
      assert !step(anchors, Iterate(step, anchors, pos, 0)).1;
      forall k | 0 <= k < fuel - 1
        ensures !step(anchors, Iterate(step, anchors, next, k)).1
      {
        assert Iterate(step, anchors, pos, k + 1) == Iterate(step, anchors, next, k);
      }
      NoConvergenceRunsToCap(step, anchors, next, fuel - 1);
    }
  }

  /** A run that stops before the cap returns the iterate whose iteration reported convergence. */
  lemma EarlyStopMeansConverged(step: Step, anchors: seq<Node>, pos: Position, fuel: nat)
    requires Run(step, anchors, pos, fuel).iterations < fuel
    ensures var n := Run(step, anchors, pos, fuel).iterations;
      && n >= 1
      && step(anchors, Iterate(step, anchors, pos, n - 1)).1
      && Run(step, anchors, pos, fuel).position == Iterate(step, anchors, pos, n)
  {
    RunFollowsIterates(step, anchors, pos, fuel);
  }
}
