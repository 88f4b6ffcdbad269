# MCMC sampler engine

A Dafny model of the `MCMCMethods` class in `mcmcmethods.py`. The class holds a target density and an optional gradient. It offers four
samplers, and the model covers all four:

- Metropolis-Hastings;
- systematic-scan Gibbs sampling, which updates a numpy array in place;
- slice sampling with a fixed-width proposal box and burn-in;
- the Metropolis-adjusted Langevin algorithm (MALA).

Every random draw is an explicit argument:

- the uniform draws of Metropolis-Hastings and MALA;
- MALA's normal noise vectors;
- the `(unit, offsets)` pairs that slice sampling's inner loop consumes, one per try.

A run that asks for more draws than were supplied fails with
`DrawsExhausted`. `init()` is replaced by its result: a state `x0`, or for Gibbs sampling the
working array itself.

Layout:

- `wrappers.dfy`: `Option` and `Result`.
- `states.dfy`: states as `seq<real>`, densities, the error kinds and uniform draws.
- `chains.dfy`: a chain driven by a transition function, stated recursively (`Run`) and state by state
  (`IsRun`). Metropolis-Hastings and MALA are both instances.
- `metropolis.dfy`, `gibbs.dfy`, `slice.dfy` and `langevin.dfy`: the specification of each sampler and
  the properties proved about it.
- `engine.dfy`: the class `MCMCMethods`. Each sampler is an imperative method with the source's
  loops, proved equal to its specification function.

Slice sampling's `thinning` is not conventional thinning. Line 53 multiplies the number of
iterations by `thinning`, and lines 67-68 record every state after burn-in, so nothing is skipped
and the method returns `n_samples * thinning` states, not `n_samples`. The model follows the code.

The model keeps the source's quirks:

- **Slice early exit.** The slice inner loop also ends, keeping `x`, when the proposal is below `x` in every
  coordinate (line 60), even though the density test failed.
- **MALA's vector ratio.** MALA forms its acceptance ratio coordinate by coordinate and compares one scalar draw against
  all of it with `np.all` (line 89).
- **Gibbs aliasing.** Gibbs sampling stores the working array itself as entry 0 (line 36). Entry 0 is therefore the
  final state after the run, not the initial one.

## Model

| member | source | states |
|---|---|---|
| Engine.MCMCMethods.constructor | mcmcmethods.py:9-11 | the sampler keeps the given target density and optional gradient, which defaults to none |
| Chains.Run | mcmcmethods.py:18-29 | the loop shared by Metropolis-Hastings and MALA: starting with the list `[x0]`, each iteration appends one transition of the newest state. A successful run of m iterations has m+1 states and starts at `x0` |
| Chains.RunCharacterized | mcmcmethods.py:18-29 | a chain run yields `c` exactly when `c` has m+1 states, starts at the initial state, and each state is the transition of the one before |
| Chains.FailurePersists | mcmcmethods.py:21-27 | once an iteration fails, every longer run fails with the same error |
| Chains.ErrorsWithin | mcmcmethods.py:21-27 | a run fails only with an error that one of its transitions can produce |
| Engine.MCMCMethods.RunChain | mcmcmethods.py:18-29 | the sampling loop (append the transition of the newest state, n times, stopping at the first failure) computes exactly the chain run |
| Metropolis.Step | mcmcmethods.py:22-26 | one iteration fails exactly when the density at x is zero, and then with `ZeroDensity`. Otherwise its state is the proposal or x |
| Metropolis.Transition | mcmcmethods.py:21-27 | when iteration k fails, the error is `ZeroDensity` if it has a draw and `DrawsExhausted` if not. Its successful result is either x or proposal call number k from x |
| Metropolis.Chain | mcmcmethods.py:18-29 | a successful chain has m+1 states starting at `init()`. A zero density at `init()` fails the run at the first iteration's division |
| Engine.MCMCMethods.MetropolisHastings | mcmcmethods.py:16-29 | the method's result is the Metropolis-Hastings chain of n iterations |
| Metropolis.ChainCharacterized | mcmcmethods.py:18-29 | a successful chain has n+1 states and starts at `init()`. Each step divides by a nonzero density, moves to the proposal when the draw is below the density ratio, and otherwise repeats the state exactly. Both directions are proved |
| Metropolis.ChainFailsOnZeroDensity | mcmcmethods.py:23 | with enough draws, a chain fails only by dividing by a zero density |
| Metropolis.PositiveChainNeverFails | mcmcmethods.py:22-26 | from a state of positive density, with at least m draws, all in [0, 1), the chain never fails and every state has positive density |
| Metropolis.UphillAccepted | mcmcmethods.py:23-26 | in a successful chain, when the current state has positive density, the proposal's density is at least that, and the draw lies in [0, 1), the proposal is accepted |
| Gibbs.SweepPrefix | mcmcmethods.py:39-40 | after the first m updates of a sweep, the vector has the same length and coordinates m.. are untouched |
| Gibbs.Sweep | mcmcmethods.py:39-40 | a full sweep keeps the vector's length and leaves coordinates without a conditional unchanged |
| Gibbs.AfterSweeps | mcmcmethods.py:38-40 | k sweeps keep the vector's length and never change coordinates without a conditional |
| Gibbs.SweepOrder | mcmcmethods.py:39-40 | in a sweep, the conditional for coordinate i sees coordinates 0..i-1 already updated and i.. as they were before the sweep |
| Gibbs.PrefixStable | mcmcmethods.py:39-40 | later updates of a sweep never rewrite coordinates already written |
| Gibbs.Run | mcmcmethods.py:36-41 | the contents of entry k at the moment it is appended: the vector after k sweeps, with entry 0 equal to `x0` |
| Engine.MCMCMethods.SweepInPlace | mcmcmethods.py:39-40 | the in-place loop writes exactly a sweep. With more conditionals than coordinates it writes every coordinate and then reports an index error |
| Engine.MCMCMethods.Copy | mcmcmethods.py:41 | `x.copy()` is a new array with the same contents |
| Engine.MCMCMethods.GibbsSampling | mcmcmethods.py:33-43 | the run fails with `IndexError` exactly when n > 0 and there are more conditionals than coordinates, leaving the array after one partial sweep. Otherwise it returns n+1 entries. Entry 0 is the working array itself, which ends at the state after n sweeps. Entry k is a fresh copy holding the state after k sweeps. The entries are pairwise distinct objects |
| Slice.Level | mcmcmethods.py:57 | for a positive density and a unit draw, the level u lies in [0, target(x)) |
| Slice.Proposal | mcmcmethods.py:58 | the proposal has the dimension of x |
| Slice.Step | mcmcmethods.py:56-65 | the inner loop, when it ends within the supplied tries, uses at least one try and yields a state of the dimension of x |
| Slice.Kept | mcmcmethods.py:67-68 | the list the outer loop builds by appending the state of each iteration whose index is at least `burn_in` equals the trace with its first `burn_in` states dropped |
| Slice.ProposalAt | mcmcmethods.py:58 | proposal coordinate j is `x[j] - width/2 + width * offsets[j]` |
| Slice.ProposalWithinWidth | mcmcmethods.py:58 | with a positive width and offsets in [0, 1), each proposal coordinate lies in `[x[j] - width/2, x[j] + width/2)` |
| Slice.StepOutcome | mcmcmethods.py:56-65 | the inner loop retried on every try before its last. The last try either adopted a proposal whose density exceeds u, or kept x because the proposal was below x in every coordinate |
| Slice.StepExhausted | mcmcmethods.py:56-65 | the supplied tries run out exactly when every remaining try retries |
| Slice.EmptyStateNeverRetries | mcmcmethods.py:60-61 | in zero dimensions the first try always ends the inner loop |
| Engine.MCMCMethods.SliceStep | mcmcmethods.py:54-65 | the `while not done` loop computes exactly the inner-loop function, including the early exit on a proposal below x |
| Slice.Trace | mcmcmethods.py:53-65 | the trace of m outer iterations has m states of the initial dimension and uses at most the supplied tries |
| Slice.TraceNext | mcmcmethods.py:53-65 | one more outer iteration extends the trace by the inner loop's result from the newest state |
| Slice.ExhaustionPersists | mcmcmethods.py:53 | once the tries run out, every longer run runs out too |
| Slice.Samples | mcmcmethods.py:51-70 | the run makes `n * thinning + burn_in` iterations. It fails exactly when the tries run out. It returns `n * thinning` states, sample k being the state after iteration `burn_in + k` |
| Slice.KeptNext | mcmcmethods.py:67-68 | an iteration's state is recorded exactly when its index is at least `burn_in` |
| Slice.SamplesOfTrace | mcmcmethods.py:51-70 | the samples are the trace with its first `burn_in` states dropped |
| Engine.MCMCMethods.SliceSampling | mcmcmethods.py:47-70 | the method's result is the slice-sampling specification. `burn_in` and `thinning` default to 0 and 1 |
| Langevin.Proposal | mcmcmethods.py:84 | the proposal has the dimension of x |
| Langevin.Kernel | mcmcmethods.py:86-87 | the Gaussian transition term is positive whenever `exp` is |
| Langevin.Numerator | mcmcmethods.py:86 | a numerator coordinate is zero when the density at the proposal is zero. It is positive when that density and `exp` are positive |
| Langevin.Denominator | mcmcmethods.py:87 | a denominator coordinate is zero when the density at x is zero. It is positive when that density and `exp` are positive |
| Langevin.DividesByZero | mcmcmethods.py:86-87 | the division fails exactly when some coordinate's denominator is zero |
| Langevin.BelowAll | mcmcmethods.py:89 | `np.all(u < ratio)` holds exactly when the one scalar draw is below every coordinate of the ratio |
| Langevin.ProposalAt | mcmcmethods.py:84 | proposal coordinate j is `x[j] + step_size * grad(x)[j] / 2 + sqrt(step_size) * noise[j]` |
| Langevin.ZeroFromIff | mcmcmethods.py:86-87 | the division fails exactly when some ratio coordinate has a zero denominator |
| Langevin.BelowFromIff | mcmcmethods.py:89 | `np.all(u < ratio)` holds exactly when the one scalar draw is below every coordinate of the ratio |
| Langevin.Step | mcmcmethods.py:83-91 | a successful iteration keeps the state's dimension. A failing one fails only on a gradient of the wrong shape or a zero denominator |
| Langevin.Transition | mcmcmethods.py:82-91 | iteration k fails with `DrawsExhausted` exactly when it has no noise vector or no draw left, and a successful one keeps the dimension |
| Langevin.Chain | mcmcmethods.py:79-93 | a successful chain has m+1 states starting at `init()`. A non-positive step size fails the run at the first iteration |
| Langevin.StepCharacterized | mcmcmethods.py:83-91 | with gradients of the right shape, an iteration fails exactly when a denominator is zero. Otherwise it yields the proposal when the scalar draw is below every ratio coordinate, and exactly x when it is not |
| Langevin.EmptyStateAlwaysAccepts | mcmcmethods.py:89-90 | for an empty state, with a positive step size, empty noise and gradients of dimension zero at the state and at the proposal, the ratio is empty and the proposal is adopted |
| Langevin.StepKeepsPositive | mcmcmethods.py:84-90 | from a state of at least one dimension and positive density, with a positive step size, noise of matching shape, gradients of the state's dimension at the state and at the proposal, a positive `exp` and a draw in [0, 1), an iteration succeeds and its state has positive density |
| Langevin.ChainCharacterized | mcmcmethods.py:79-93 | a successful chain has n+1 states and starts at `init()`. Each state comes from the one before by one iteration with its own noise vector of matching shape and its own scalar draw. Both directions are proved |
| Langevin.PositiveChainNeverFails | mcmcmethods.py:79-93 | from a state of positive density, with a positive step size, a positive `exp`, dimension-preserving gradients, at least m draws, all in [0, 1), and at least m noise vectors of the state's shape, the chain never fails, keeps the dimension, and keeps positive density |
| Engine.MCMCMethods.Mala | mcmcmethods.py:74-93 | without a gradient the call fails with `MissingGradient` before anything else. With one, the result is the MALA chain of n iterations |

## Left out

- Plotting and animation (`mcmcmethods.py:98-143`), the `trace` parameter of `gibbs_sampling` and `trace_interval`: these are output only, with no effect on the samples.
- The `tqdm` progress bar and `examples.py`: presentation and usage examples.
- Floating point: states and densities are exact reals. `np.exp` and `np.sqrt` are parameters of MALA with no properties assumed, except where a lemma requires `exp` to be positive.
- Randomness: `np.random.rand`, `np.random.uniform` and `np.random.normal` are replaced by supplied draws. Uniformity and normality of those draws are not modelled; lemmas that need draws in [0, 1) say so.
- Proposals and Gibbs conditionals receive the iteration or sweep number as an extra argument. It stands for their own randomness, because Dafny functions are deterministic. The Gibbs conditionals see the array's contents and cannot change the array.
- Division by a zero density: numpy produces `inf` or `nan` (with a warning), and a Python float raises `ZeroDivisionError`. The model reports `ZeroDensity` and stops instead. MALA does the same when any coordinate's denominator is zero.
- numpy broadcasting: a MALA gradient or noise vector of the wrong shape is a `ShapeMismatch` failure, not a broadcast. MALA with a non-positive step size fails with `BadStepSize` at its first iteration. In the source, `step_size == 0` makes the ratio `nan`, rejects every proposal and returns n+1 copies of `x0`; a negative step size gives `nan` from `np.sqrt` as well.
- Slice.Step: the source's inner loop is unbounded, so a run in which no try ever ends it does not terminate. The model bounds it by the supplied tries and reports `DrawsExhausted`.
- Negative `n_samples`, `burn_in` or `thinning`: the counts are natural numbers. Python's `range` of a negative count is empty, which the model does not cover.
- Gibbs' failing `x[i] = ...`: Python evaluates the conditional before the assignment raises. The model skips that call, because the result is discarded.
- Hamiltonian Monte Carlo and Metropolis-within-Gibbs: `mcmcmethods.py` does not implement them, so they are not part of this model.
