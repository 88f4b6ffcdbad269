/** The Metropolis-Hastings chain: its transition, the chain it builds, and what is proved about both. */
module Metropolis {
  import opened Wrappers
  import opened States
  import Chains

  /** A proposal generator. Its second argument is the number of the call, which stands for
      the proposal's own randomness: two calls on the same state may propose different states. */
  type Proposal = (State, nat) -> State

  /** One iteration: the candidate is adopted when the draw is below
      target(prop) / target(x); a zero density at `x` makes that division fail. */
  function Step(target: Density, x: State, prop: State, u: real): (r: Result<State, Error>)
    ensures r.Failure? <==> target(x) == 0.0
    ensures r.Failure? ==> r.error == ZeroDensity
    ensures r.Success? ==> r.value == prop || r.value == x
  {
    if target(x) == 0.0 then Failure(ZeroDensity)
    else if u < target(prop) / target(x) then Success(prop)
    else Success(x)
  }

  /** Iteration `k` of the sampler: the proposal call number `k` from `x`, judged with the
      draw `draws[k]`. An iteration past the supplied draws has none to use. */
  function Transition(target: Density, proposal: Proposal, draws: seq<real>): (r: Chains.Transition)
    ensures forall x: State, k: nat :: r(x, k).Failure? ==>
              r(x, k).error == (if k < |draws| then ZeroDensity else DrawsExhausted)
    ensures forall x: State, k: nat :: r(x, k).Success? ==> r(x, k).value == x || r(x, k).value == proposal(x, k)
  {
    var r := (x: State, k: nat) =>
      if k < |draws| then Step(target, x, proposal(x, k), draws[k]) else Failure(DrawsExhausted);
    assert forall x: State, k: nat ::
             r(x, k) == if k < |draws| then Step(target, x, proposal(x, k), draws[k]) else Failure(DrawsExhausted);
    r
  }

  /** The chain after `m` iterations; the first state is the one `init()` returned. A zero
      density there makes the first iteration's division fail, and with it the whole run. */
  function Chain(target: Density, proposal: Proposal, x0: State, draws: seq<real>, m: nat): (r: Result<seq<State>, Error>)
    ensures r.Success? ==> |r.value| == m + 1 && r.value[0] == x0
    ensures 0 < m <= |draws| && target(x0) == 0.0 ==> r == Failure(ZeroDensity)
  {
    var step := Transition(target, proposal, draws);
    if 0 < m <= |draws| && target(x0) == 0.0 then
      assert Chains.Run(step, x0, 1) == Failure(ZeroDensity) by {
        assert Chains.Run(step, x0, 0) == Success([x0]);
        assert step(x0, 0) == Step(target, x0, proposal(x0, 0), draws[0]);
      }
      Chains.FailurePersists(step, x0, 1, m);
      Chains.Run(step, x0, m)
    else
      Chains.Run(step, x0, m)
  }

  /** With enough draws a run can fail only by dividing by a zero density. */
  lemma ChainFailsOnZeroDensity(target: Density, proposal: Proposal, x0: State, draws: seq<real>, m: nat)
    requires m <= |draws|
    ensures var r := Chain(target, proposal, x0, draws, m);
            r.Failure? ==> r.error == ZeroDensity
  {
    var step := Transition(target, proposal, draws);
    forall x, k: nat | k < m && step(x, k).Failure?
      ensures step(x, k).error in {ZeroDensity}
    {
      assert step(x, k) == Step(target, x, proposal(x, k), draws[k]);
    }
    Chains.ErrorsWithin(step, x0, m, {ZeroDensity});
  }

  /** Iteration `k` of a chain `c`: the density at `c[k]` is non-zero, and `c[k + 1]` is the
      proposal drawn from `c[k]` when the draw is below the density ratio, and otherwise
      exactly `c[k]`. */
  ghost predicate Moves(target: Density, proposal: Proposal, draws: seq<real>, c: seq<State>, k: nat)
    requires k < |draws| && k + 1 < |c|
  {
    && target(c[k]) != 0.0
    && c[k + 1] == (if draws[k] < target(proposal(c[k], k)) / target(c[k]) then proposal(c[k], k) else c[k])
  }

  /** The chain stated state by state: it starts at `x0` and every iteration moves as above. */
  ghost predicate IsChain(target: Density, proposal: Proposal, x0: State, draws: seq<real>, m: nat, c: seq<State>)
    requires m <= |draws|
  {
    && |c| == m + 1
    && c[0] == x0
    && forall k :: 0 <= k < m ==> Moves(target, proposal, draws, c, k)
  }

  /** The chain and the state-by-state description agree, in both directions: the run has
      `m + 1` states, the first is `x0`, and each iteration adopts the proposal exactly when
      the draw is below the density ratio and repeats the state otherwise. */
  lemma ChainCharacterized(target: Density, proposal: Proposal, x0: State, draws: seq<real>, m: nat, c: seq<State>)
    requires m <= |draws|
    ensures Chain(target, proposal, x0, draws, m) == Success(c) <==> IsChain(target, proposal, x0, draws, m, c)
  {
    var step := Transition(target, proposal, draws);
    Chains.RunCharacterized(step, x0, m, c);
    if |c| == m + 1 {
      forall k | 0 <= k < m
        ensures step(c[k], k) == Success(c[k + 1]) <==> Moves(target, proposal, draws, c, k)
      {
      }
    }
  }

  /** A positive density ratio cannot come from a positive denominator and a non-positive numerator. */
  lemma PositiveQuotient(a: real, b: real)
    requires b > 0.0 && a / b > 0.0
    ensures a > 0.0
  {
    assert a == (a / b) * b;
  }

  /** Division by zero cannot happen: from a state of positive density and draws in [0, 1),
      every state of the chain has positive density, so the run never fails. */
  lemma {:induction false} PositiveChainNeverFails(target: Density, proposal: Proposal, x0: State, draws: seq<real>, m: nat)
    requires m <= |draws| && target(x0) > 0.0 && AllUnit(draws)
    ensures Chain(target, proposal, x0, draws, m).Success?
    ensures forall k :: 0 <= k <= m ==> target(Chain(target, proposal, x0, draws, m).value[k]) > 0.0
  {
    if m > 0 {
      PositiveChainNeverFails(target, proposal, x0, draws, m - 1);
      var c := Chain(target, proposal, x0, draws, m - 1).value;
      var x := c[m - 1];
      var prop := proposal(x, m - 1);
      assert target(x) > 0.0;
      if draws[m - 1] < target(prop) / target(x) {
        PositiveQuotient(target(prop), target(x));
      }
      var r := Chain(target, proposal, x0, draws, m).value;
      assert r == c + [if draws[m - 1] < target(prop) / target(x) then prop else x];
      assert forall k :: 0 <= k < m ==> r[k] == c[k];
    }
  }

  /** A ratio of at least one exceeds every draw in [0, 1): no clamp to 1 is needed. */
  lemma UphillRatio(a: real, b: real, u: real)
    requires a >= b > 0.0 && IsUnit(u)
    ensures u < a / b
  {
    assert a / b * b == a;
  }

  /** An iteration whose proposal has at least the current (positive) density always adopts it. */
  lemma UphillAccepted(target: Density, proposal: Proposal, x0: State, draws: seq<real>, m: nat, c: seq<State>, k: nat)
    requires m <= |draws| && Chain(target, proposal, x0, draws, m) == Success(c)
    requires k < m && IsUnit(draws[k])
    requires target(proposal(c[k], k)) >= target(c[k]) > 0.0
    ensures c[k + 1] == proposal(c[k], k)
  {
    ChainCharacterized(target, proposal, x0, draws, m, c);
    assert Moves(target, proposal, draws, c, k);
    UphillRatio(target(proposal(c[k], k)), target(c[k]), draws[k]);
  }
}
