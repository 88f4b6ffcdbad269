/** A Markov chain built by repeating a transition from an initial state: the shape that
    Metropolis-Hastings and MALA share. The chain holds the initial state followed by the
    state after each iteration; the first failing iteration ends the run with its error. */
module Chains {
  import opened Wrappers
  import opened States

  /** Iteration `k` from state `x`: the next state, or the error that ends the run. The
      iteration number selects that iteration's draws. */
  type Transition = (State, nat) -> Result<State, Error>

  /** The chain after `m` iterations. */
  function Run(step: Transition, x0: State, m: nat): (r: Result<seq<State>, Error>)
    ensures r.Success? ==> |r.value| == m + 1 && r.value[0] == x0
  {
    if m == 0 then Success([x0])
    else
      match Run(step, x0, m - 1)
      case Failure(e) => Failure(e)
      case Success(c) =>
        match step(c[m - 1], m - 1)
        case Failure(e) => Failure(e)
        case Success(y) => Success(c + [y])
  }

  /** A failed run stays failed: running more iterations returns the same error. */
  lemma {:induction false} FailurePersists(step: Transition, x0: State, i: nat, m: nat)
    requires i <= m && Run(step, x0, i).Failure?
    ensures Run(step, x0, m) == Run(step, x0, i)
    decreases m
  {
    if i < m {
      FailurePersists(step, x0, i, m - 1);
    }
  }

  /** A run fails only with an error some transition can produce. */
  lemma {:induction false} ErrorsWithin(step: Transition, x0: State, m: nat, errors: set<Error>)
    requires forall x, k: nat :: k < m && step(x, k).Failure? ==> step(x, k).error in errors
    ensures Run(step, x0, m).Failure? ==> Run(step, x0, m).error in errors
  {
    if m > 0 {
      ErrorsWithin(step, x0, m - 1, errors);
    }
  }

  /** The chain stated state by state: it starts at `x0` and iteration `k` takes `c[k]` to `c[k + 1]`. */
  ghost predicate IsRun(step: Transition, x0: State, m: nat, c: seq<State>) {
    && |c| == m + 1
    && c[0] == x0
    && forall k :: 0 <= k < m ==> step(c[k], k) == Success(c[k + 1])
  }

  lemma {:induction false} RunGivesIsRun(step: Transition, x0: State, m: nat)
    requires Run(step, x0, m).Success?
    ensures IsRun(step, x0, m, Run(step, x0, m).value)
  {
    if m > 0 {
      RunGivesIsRun(step, x0, m - 1);
      var prefix := Run(step, x0, m - 1).value;
      var c := Run(step, x0, m).value;
      assert c[..m] == prefix;
      forall k | 0 <= k < m - 1
        ensures step(c[k], k) == Success(c[k + 1])
      {
        assert c[k] == prefix[k] && c[k + 1] == prefix[k + 1];
      }
    }
  }

  lemma {:induction false} IsRunGivesRun(step: Transition, x0: State, m: nat, c: seq<State>)
    requires IsRun(step, x0, m, c)
    ensures Run(step, x0, m) == Success(c)
  {
    if m == 0 {
      assert c == [x0];
    } else {
      var prefix := c[..m];
      forall k | 0 <= k < m - 1
        ensures step(prefix[k], k) == Success(prefix[k + 1])
      {
        assert c[k] == prefix[k] && c[k + 1] == prefix[k + 1];
      }
      IsRunGivesRun(step, x0, m - 1, prefix);
      assert prefix + [c[m]] == c;
    }
  }

  /** The recursive chain and the state-by-state description agree, in both directions. */
  lemma RunCharacterized(step: Transition, x0: State, m: nat, c: seq<State>)
    ensures Run(step, x0, m) == Success(c) <==> IsRun(step, x0, m, c)
  {
    if Run(step, x0, m) == Success(c) {
      RunGivesIsRun(step, x0, m);
    }
    if IsRun(step, x0, m, c) {
      IsRunGivesRun(step, x0, m, c);
    }
  }
}
