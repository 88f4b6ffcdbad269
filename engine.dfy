/** The sampler engine: configured once with a target density and an optional gradient,
    it offers one method per sampling algorithm, each building its chain in a loop.
    Every random draw is an explicit argument. */
module Engine {
  import opened Wrappers
  import opened States
  import Chains
  import Metropolis
  import Gibbs
  import Slice
  import Langevin

  class MCMCMethods {
    const target: Density
    const grad: Option<State -> State>

    constructor (target: Density, grad: Option<State -> State> := None)
      ensures this.target == target && this.grad == grad
    {
      this.target := target;
      this.grad := grad;
    }

    /** The sampling loop shared by Metropolis-Hastings and MALA: starting from `x0`, it
        applies iteration `i`'s transition to the newest state and appends the result,
        `n` times, stopping at the first iteration that fails. */
    static method RunChain(step: Chains.Transition, x0: State, n: nat) returns (r: Result<seq<State>, Error>)
      ensures r == Chains.Run(step, x0, n)
    {
      var x := x0;
      var samples := [x];
      for i := 0 to n
        invariant Chains.Run(step, x0, i) == Success(samples)
        invariant x == samples[i]
      {
        var next := step(x, i);
        if next.Failure? {
          Chains.FailurePersists(step, x0, i + 1, n);
          return Failure(next.error);
        }
        x := next.value;
        samples := samples + [x];
      }
      return Success(samples);
    }

    /** Metropolis-Hastings with `x0` the result of `init()`, `draws[i]` the uniform draw of
        iteration `i`, and call number `i` of the proposal. */
    method MetropolisHastings(x0: State, proposal: Metropolis.Proposal, n: nat, draws: seq<real>)
      returns (r: Result<seq<State>, Error>)
      ensures r == Metropolis.Chain(target, proposal, x0, draws, n)
    {
      r := RunChain(Metropolis.Transition(target, proposal, draws), x0, n);
    }

    /** One sweep of Gibbs sampling in place: `x[i]` becomes `conds[i]` applied to `x` as it
        stands, for i = 0, 1, ... in order. A conditional past the last coordinate is an
        index error, raised after every coordinate has been written. */
    static method SweepInPlace(conds: seq<Gibbs.Conditional>, x: array<real>, t: nat) returns (ok: bool)
      modifies x
      ensures ok <==> |conds| <= x.Length
      ensures ok ==> x[..] == Gibbs.Sweep(conds, old(x[..]), t)
      ensures !ok ==> x[..] == Gibbs.SweepPrefix(conds, old(x[..]), t, x.Length)
    {
      for i := 0 to |conds|
        invariant i <= x.Length
        invariant x[..] == Gibbs.SweepPrefix(conds, old(x[..]), t, i)
      {
        if i == x.Length {
          return false;
        }
        x[i] := conds[i](x[..], t);
      }
      return true;
    }

    /** `x.copy()`: a new array with the same contents. */
    static method Copy(x: array<real>) returns (c: array<real>)
      ensures fresh(c) && c[..] == x[..]
    {
      c := new real[x.Length];
      forall j | 0 <= j < x.Length {
        c[j] := x[j];
      }
    }

    /** Gibbs sampling on the array `x` returned by `init()`, which is the working vector.
        Entry 0 of the result is `x` itself, so after the run it holds the last sweep's
        state; entries 1..n are fresh copies taken after each sweep. With more conditionals
        than coordinates the first sweep writes every coordinate and then fails. */
    method GibbsSampling(conds: seq<Gibbs.Conditional>, x: array<real>, n: nat)
      returns (r: Result<seq<array<real>>, Error>)
      modifies x
      ensures r.Failure? <==> 0 < n && x.Length < |conds|
      ensures r.Failure? ==> r.error == IndexError && x[..] == Gibbs.SweepPrefix(conds, old(x[..]), 0, x.Length)
      ensures r.Success? ==> |r.value| == n + 1 && r.value[0] == x
      ensures r.Success? ==> x[..] == Gibbs.AfterSweeps(conds, old(x[..]), n)
      ensures r.Success? ==> forall k :: 1 <= k <= n ==>
                fresh(r.value[k]) && r.value[k][..] == Gibbs.AfterSweeps(conds, old(x[..]), k)
      ensures r.Success? ==> forall j, k :: 0 <= j < k <= n ==> r.value[j] != r.value[k]
    {
      ghost var x0 := x[..];
      var samples := [x];
      ghost var snaps := [x0];
      for t := 0 to n
        invariant 0 < t ==> |conds| <= x.Length
        invariant x[..] == Gibbs.AfterSweeps(conds, x0, t)
        invariant |samples| == t + 1 && samples[0] == x
        invariant snaps == Gibbs.Run(conds, x0, t)
        invariant forall k :: 1 <= k <= t ==> fresh(samples[k]) && samples[k] != x
        invariant forall k :: 1 <= k <= t ==> samples[k][..] == snaps[k]
        invariant forall j, k :: 0 <= j < k <= t ==> samples[j] != samples[k]
      {
        var ok := SweepInPlace(conds, x, t);
        if !ok {
          return Failure(IndexError);
        }
        var copy := Copy(x);
        samples := samples + [copy];
        snaps := snaps + [x[..]];
      }
      return Success(samples);
    }

    /** The inner `while not done` loop of slice sampling from state `x`, using the tries
        from number `c0` on: each try draws the level `u` and a proposal; a proposal below `x`
        in every coordinate ends the loop, and one whose density exceeds `u` is adopted and
        ends it. None when the tries run out before the loop ends. */
    method SliceStep(x: State, width: real, tries: seq<Slice.Try>, c0: nat) returns (r: Option<(State, nat)>)
      requires c0 <= |tries| && Slice.Dimensioned(tries, |x|)
      ensures r == Slice.Step(target, width, x, tries, c0)
    {
      var y := x;
      var c := c0;
      var done := false;
      while !done
        invariant c0 <= c <= |tries|
        invariant !done ==> y == x && Slice.Step(target, width, x, tries, c0) == Slice.Step(target, width, x, tries, c)
        invariant done ==> Slice.Step(target, width, x, tries, c0) == Some((y, c))
        decreases |tries| - c
      {
        if c == |tries| {
          return None;
        }
        var u := 0.0 + (target(y) - 0.0) * tries[c].unit;
        var xProposal := Slice.Proposal(y, width, tries[c].offsets);
        assert u == Slice.Level(target, x, tries[c].unit);
        c := c + 1;
        if Slice.AllBelow(xProposal, y) {
          done := true;
        }
        if target(xProposal) > u {
          y := xProposal;
          done := true;
        }
      }
      return Some((y, c));
    }

    /** Slice sampling with `x0` the result of `init()`. Each outer iteration runs the inner
        loop on the supplied tries, picking up where the previous iteration stopped; the state
        is recorded for iteration indices `>= burnIn`. Running out of tries is a failure. */
    method SliceSampling(x0: State, width: real, n: nat, tries: seq<Slice.Try>, burnIn: nat := 0, thinning: nat := 1)
      returns (r: Result<seq<State>, Error>)
      requires Slice.Dimensioned(tries, |x0|)
      ensures r == Slice.Samples(target, width, x0, n, burnIn, thinning, tries)
    {
      var x := x0;
      var samples := [];
      var c := 0;
      ghost var trace := [];
      var kept: nat := n * thinning;
      var iterations := kept + burnIn;
      assert iterations == Slice.Iterations(n, burnIn, thinning);
      for t := 0 to iterations
        invariant Slice.Trace(target, width, x0, tries, t) == Some((trace, c))
        invariant x == Slice.Current(x0, trace) && |x| == |x0|
        invariant samples == Slice.Kept(trace, burnIn)
      {
        Slice.TraceNext(target, width, x0, tries, t, trace, c);
        var next := SliceStep(x, width, tries, c);
        if next.None? {
          Slice.ExhaustionPersists(target, width, x0, tries, t + 1, iterations);
          return Failure(DrawsExhausted);
        }
        x, c := next.value.0, next.value.1;
        Slice.KeptNext(trace, x, burnIn);
        if t >= burnIn {
          samples := samples + [x];
        }
        trace := trace + [x];
      }
      Slice.SamplesOfTrace(target, width, x0, n, burnIn, thinning, tries, trace, c);
      return Success(samples);
    }

    /** The Metropolis-adjusted Langevin algorithm with `x0` the result of `init()`,
        `noises[i]` the normal vector and `draws[i]` the scalar uniform of iteration `i`, and
        `exp`, `sqrt` standing for `np.exp`, `np.sqrt`. Without a gradient it fails before
        looking at any of its inputs. */
    method Mala(x0: State, stepSize: real, n: nat, noises: seq<seq<real>>, draws: seq<real>,
                exp: real -> real, sqrt: real -> real)
      returns (r: Result<seq<State>, Error>)
      ensures grad.None? ==> r == Failure(MissingGradient)
      ensures grad.Some? ==> r == Langevin.Chain(Langevin.Config(target, grad.value, exp, sqrt, stepSize), x0, noises, draws, n)
    {
      if grad.None? {
        return Failure(MissingGradient);
      }
      var cfg := Langevin.Config(target, grad.value, exp, sqrt, stepSize);
      r := RunChain(Langevin.Transition(cfg, noises, draws), x0, n);
    }
  }
}
