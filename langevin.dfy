/** The Metropolis-adjusted Langevin chain. `exp` and `sqrt` are parameters standing for
    `np.exp` and `np.sqrt`; the acceptance ratio is a vector, one entry per coordinate. */
module Langevin {
  import opened Wrappers
  import opened States
  import Chains

  /** The sampler's configuration: the density and its gradient, the stand-ins for
      `np.exp` and `np.sqrt`, and the step size. */
  datatype Config = Config(target: Density, grad: State -> State, exp: real -> real, sqrt: real -> real, stepSize: real)

  /** `x + eps * g / 2 + rootEps * noise`, coordinate by coordinate. */
  function Proposal(x: State, g: State, eps: real, rootEps: real, noise: seq<real>): (p: State)
    requires |g| == |x| && |noise| == |x|
    ensures |p| == |x|
  {
    if |x| == 0 then []
    else [x[0] + eps * g[0] / 2.0 + rootEps * noise[0]] + Proposal(x[1..], g[1..], eps, rootEps, noise[1..])
  }

  /** Coordinate `j` of a proposal depends on coordinate `j` of `x`, `g` and `noise` only. */
  lemma {:induction false} ProposalAt(x: State, g: State, eps: real, rootEps: real, noise: seq<real>, j: nat)
    requires |g| == |x| && |noise| == |x| && j < |x|
    ensures Proposal(x, g, eps, rootEps, noise)[j] == x[j] + eps * g[j] / 2.0 + rootEps * noise[j]
  {
    if j > 0 {
      ProposalAt(x[1..], g[1..], eps, rootEps, noise[1..], j - 1);
    }
  }

  /** `exp(-(to - from - eps * gFrom / 2)**2 / (2 * eps))`: the Gaussian transition term of
      one coordinate, with the drift taken from the gradient at the starting point. */
  function Kernel(exp: real -> real, from: real, to: real, gFrom: real, eps: real): (r: real)
    requires eps > 0.0
    ensures (forall t :: exp(t) > 0.0) ==> r > 0.0
  {
    var d := to - from - eps * gFrom / 2.0;
    exp(-(d * d) / (2.0 * eps))
  }

  /** Coordinate `j` of the numerator of the ratio: the density at the proposal `p` times the
      reverse move `p -> x`, whose drift uses `gp`, the gradient at the proposal. */
  function Numerator(cfg: Config, x: State, p: State, gp: State, j: nat): (r: real)
    requires cfg.stepSize > 0.0 && |p| == |x| && |gp| == |x| && j < |x|
    ensures cfg.target(p) == 0.0 ==> r == 0.0
    ensures cfg.target(p) > 0.0 && (forall t :: cfg.exp(t) > 0.0) ==> r > 0.0
  {
    cfg.target(p) * Kernel(cfg.exp, p[j], x[j], gp[j], cfg.stepSize)
  }

  /** Coordinate `j` of the denominator: the density at `x` times the forward move `x -> p`,
      whose drift uses `gx`, the gradient at `x`. */
  function Denominator(cfg: Config, x: State, p: State, gx: State, j: nat): (r: real)
    requires cfg.stepSize > 0.0 && |p| == |x| && |gx| == |x| && j < |x|
    ensures cfg.target(x) == 0.0 ==> r == 0.0
    ensures cfg.target(x) > 0.0 && (forall t :: cfg.exp(t) > 0.0) ==> r > 0.0
  {
    cfg.target(x) * Kernel(cfg.exp, x[j], p[j], gx[j], cfg.stepSize)
  }

  /** Some coordinate from `j` on of the ratio divides by zero. */
  predicate ZeroFrom(cfg: Config, x: State, p: State, gx: State, j: nat)
    requires cfg.stepSize > 0.0 && |p| == |x| && |gx| == |x| && j <= |x|
    decreases |x| - j
  {
    j < |x| && (Denominator(cfg, x, p, gx, j) == 0.0 || ZeroFrom(cfg, x, p, gx, j + 1))
  }

  /** Some coordinate of the ratio divides by zero. */
  predicate DividesByZero(cfg: Config, x: State, p: State, gx: State)
    requires cfg.stepSize > 0.0 && |p| == |x| && |gx| == |x|
    ensures DividesByZero(cfg, x, p, gx) <==> exists k :: 0 <= k < |x| && Denominator(cfg, x, p, gx, k) == 0.0
  {
    ZeroFromIff(cfg, x, p, gx, 0);
    ZeroFrom(cfg, x, p, gx, 0)
  }

  /** The one scalar draw is below every coordinate of the ratio from `j` on. */
  predicate BelowFrom(cfg: Config, x: State, p: State, gx: State, gp: State, u: real, j: nat)
    requires cfg.stepSize > 0.0 && |p| == |x| && |gx| == |x| && |gp| == |x| && j <= |x|
    requires !ZeroFrom(cfg, x, p, gx, j)
    decreases |x| - j
  {
    j == |x| ||
    (u < Numerator(cfg, x, p, gp, j) / Denominator(cfg, x, p, gx, j) && BelowFrom(cfg, x, p, gx, gp, u, j + 1))
  }

  /** `np.all(u < ratio)`: the one scalar draw is below every coordinate of the ratio
      (true of a zero-dimensional state, where the ratio is empty). */
  predicate BelowAll(cfg: Config, x: State, p: State, gx: State, gp: State, u: real)
    requires cfg.stepSize > 0.0 && |p| == |x| && |gx| == |x| && |gp| == |x|
    requires !DividesByZero(cfg, x, p, gx)
    ensures BelowAll(cfg, x, p, gx, gp, u) <==>
              forall k :: 0 <= k < |x| ==>
                Denominator(cfg, x, p, gx, k) != 0.0 && u < Numerator(cfg, x, p, gp, k) / Denominator(cfg, x, p, gx, k)
  {
    BelowFromIff(cfg, x, p, gx, gp, u, 0);
    BelowFrom(cfg, x, p, gx, gp, u, 0)
  }

  /** The coordinate scan finds a zero denominator exactly when there is one. */
  lemma {:induction false} ZeroFromIff(cfg: Config, x: State, p: State, gx: State, j: nat)
    requires cfg.stepSize > 0.0 && |p| == |x| && |gx| == |x| && j <= |x|
    ensures ZeroFrom(cfg, x, p, gx, j) <==> exists k :: j <= k < |x| && Denominator(cfg, x, p, gx, k) == 0.0
    decreases |x| - j
  {
    if j < |x| {
      ZeroFromIff(cfg, x, p, gx, j + 1);
    }
  }

  /** The coordinate scan of the ratio holds exactly when the draw is below every coordinate. */
  lemma {:induction false} BelowFromIff(cfg: Config, x: State, p: State, gx: State, gp: State, u: real, j: nat)
    requires cfg.stepSize > 0.0 && |p| == |x| && |gx| == |x| && |gp| == |x| && j <= |x|
    requires !ZeroFrom(cfg, x, p, gx, j)
    ensures BelowFrom(cfg, x, p, gx, gp, u, j) <==>
              forall k :: j <= k < |x| ==>
                Denominator(cfg, x, p, gx, k) != 0.0 && u < Numerator(cfg, x, p, gp, k) / Denominator(cfg, x, p, gx, k)
    decreases |x| - j
  {
    if j < |x| {
      BelowFromIff(cfg, x, p, gx, gp, u, j + 1);
      ZeroFromIff(cfg, x, p, gx, j);
    }
  }

  /** One iteration from `x` with noise vector `noise` and scalar draw `u`. A gradient of the
      wrong dimension is a shape error (at `x` when proposing, at the proposal when forming the
      ratio); a zero denominator makes the division fail; otherwise the proposal is adopted
      when `u` is below every coordinate of the ratio, and `x` is kept otherwise. */
  function Step(cfg: Config, x: State, noise: seq<real>, u: real): (r: Result<State, Error>)
    requires cfg.stepSize > 0.0 && |noise| == |x|
    ensures r.Success? ==> |r.value| == |x|
    ensures r.Failure? ==> r.error == ShapeMismatch || r.error == ZeroDensity
  {
    var gx := cfg.grad(x);
    if |gx| != |x| then Failure(ShapeMismatch)
    else
      var p := Proposal(x, gx, cfg.stepSize, cfg.sqrt(cfg.stepSize), noise);
      var gp := cfg.grad(p);
      if |gp| != |x| then Failure(ShapeMismatch)
      else if DividesByZero(cfg, x, p, gx) then Failure(ZeroDensity)
      else if BelowAll(cfg, x, p, gx, gp, u) then Success(p)
      else Success(x)
  }

  /** One iteration, stated outright for gradients of the right dimension: it fails exactly
      when some denominator is zero; otherwise it yields the proposal when the one scalar draw
      is below every coordinate of the ratio, and exactly `x` when it is not. */
  lemma StepCharacterized(cfg: Config, x: State, noise: seq<real>, u: real, y: State)
    requires cfg.stepSize > 0.0 && |noise| == |x|
    requires |cfg.grad(x)| == |x|
    requires |cfg.grad(Proposal(x, cfg.grad(x), cfg.stepSize, cfg.sqrt(cfg.stepSize), noise))| == |x|
    ensures var gx := cfg.grad(x);
            var p := Proposal(x, gx, cfg.stepSize, cfg.sqrt(cfg.stepSize), noise);
            var gp := cfg.grad(p);
            && (Step(cfg, x, noise, u).Failure? <==> exists j :: 0 <= j < |x| && Denominator(cfg, x, p, gx, j) == 0.0)
            && (Step(cfg, x, noise, u) == Success(y) <==>
                  && (forall j :: 0 <= j < |x| ==> Denominator(cfg, x, p, gx, j) != 0.0)
                  && y == (if forall j :: 0 <= j < |x| ==> u < Numerator(cfg, x, p, gp, j) / Denominator(cfg, x, p, gx, j)
                           then p else x))
  {
    var gx := cfg.grad(x);
    var p := Proposal(x, gx, cfg.stepSize, cfg.sqrt(cfg.stepSize), noise);
    ZeroFromIff(cfg, x, p, gx, 0);
    if !DividesByZero(cfg, x, p, gx) {
      BelowFromIff(cfg, x, p, gx, cfg.grad(p), u, 0);
    }
  }

  /** Supplied noise vectors of the state's dimension, as `np.random.normal(size=x.shape)` draws. */
  predicate NoiseFits(noises: seq<seq<real>>, d: nat, m: nat)
    requires m <= |noises|
  {
    forall k :: 0 <= k < m ==> |noises[k]| == d
  }

  /** Iteration `k` of the sampler: the noise vector `noises[k]` and the scalar draw `draws[k]`.
      An iteration past the supplied draws has none to use, a noise vector must have the shape
      of `x`, and the step size must be positive for `np.sqrt` and the division by
      `2 * step_size` to stay within the reals. */
  function Transition(cfg: Config, noises: seq<seq<real>>, draws: seq<real>): (r: Chains.Transition)
    ensures forall x: State, k: nat ::
              (r(x, k).Failure? && r(x, k).error == DrawsExhausted) <==> (k >= |noises| || k >= |draws|)
    ensures forall x: State, k: nat :: r(x, k).Success? ==> |r(x, k).value| == |x|
  {
    var r := (x: State, k: nat) =>
      if k >= |noises| || k >= |draws| then Failure(DrawsExhausted)
      else if |noises[k]| != |x| then Failure(ShapeMismatch)
      else if cfg.stepSize <= 0.0 then Failure(BadStepSize)
      else Step(cfg, x, noises[k], draws[k]);
    assert forall x: State, k: nat ::
             r(x, k) == if k >= |noises| || k >= |draws| then Failure(DrawsExhausted)
                        else if |noises[k]| != |x| then Failure(ShapeMismatch)
                        else if cfg.stepSize <= 0.0 then Failure(BadStepSize)
                        else Step(cfg, x, noises[k], draws[k]);
    r
  }

  /** The chain after `m` iterations; the first state is the one `init()` returned. */
  function Chain(cfg: Config, x0: State, noises: seq<seq<real>>, draws: seq<real>, m: nat): (r: Result<seq<State>, Error>)
    ensures r.Success? ==> |r.value| == m + 1 && r.value[0] == x0
    ensures 0 < m && 0 < |noises| && 0 < |draws| && |noises[0]| == |x0| && cfg.stepSize <= 0.0 ==>
              r == Failure(BadStepSize)
  {
    var step := Transition(cfg, noises, draws);
    if 0 < m && 0 < |noises| && 0 < |draws| && |noises[0]| == |x0| && cfg.stepSize <= 0.0 then
      assert Chains.Run(step, x0, 1) == Failure(BadStepSize) by {
        assert Chains.Run(step, x0, 0) == Success([x0]);
        assert step(x0, 0) == Failure(BadStepSize);
      }
      Chains.FailurePersists(step, x0, 1, m);
      Chains.Run(step, x0, m)
    else
      Chains.Run(step, x0, m)
  }

  /** The chain stated state by state: it starts at `x0`, and iteration `k` takes `c[k]`, with
      its noise vector of matching shape, by one step to `c[k + 1]`. */
  ghost predicate IsChain(cfg: Config, x0: State, noises: seq<seq<real>>, draws: seq<real>, m: nat, c: seq<State>)
    requires cfg.stepSize > 0.0 && m <= |noises| && m <= |draws|
  {
    && |c| == m + 1
    && c[0] == x0
    && forall k :: 0 <= k < m ==>
         |noises[k]| == |c[k]| && Step(cfg, c[k], noises[k], draws[k]) == Success(c[k + 1])
  }

  /** The chain and the state-by-state description agree, in both directions. */
  lemma ChainCharacterized(cfg: Config, x0: State, noises: seq<seq<real>>, draws: seq<real>, m: nat, c: seq<State>)
    requires cfg.stepSize > 0.0 && m <= |noises| && m <= |draws|
    ensures Chain(cfg, x0, noises, draws, m) == Success(c) <==> IsChain(cfg, x0, noises, draws, m, c)
  {
    var step := Transition(cfg, noises, draws);
    Chains.RunCharacterized(step, x0, m, c);
    if Chains.IsRun(step, x0, m, c) {
      forall k | 0 <= k < m
        ensures |noises[k]| == |c[k]| && Step(cfg, c[k], noises[k], draws[k]) == Success(c[k + 1])
      {
        assert step(c[k], k) == Success(c[k + 1]);
      }
    }
    if IsChain(cfg, x0, noises, draws, m, c) {
      forall k | 0 <= k < m
        ensures step(c[k], k) == Success(c[k + 1])
      {
        assert Step(cfg, c[k], noises[k], draws[k]) == Success(c[k + 1]);
      }
    }
  }

  /** In zero dimensions the ratio is an empty vector and `np.all` of it is true:
      every proposal is adopted, and nothing is divided. */
  lemma EmptyStateAlwaysAccepts(cfg: Config, x: State, noise: seq<real>, u: real)
    requires cfg.stepSize > 0.0 && |x| == 0 && |noise| == 0
    requires |cfg.grad(x)| == 0 && |cfg.grad(Proposal(x, cfg.grad(x), cfg.stepSize, cfg.sqrt(cfg.stepSize), noise))| == 0
    ensures Step(cfg, x, noise, u) == Success(Proposal(x, cfg.grad(x), cfg.stepSize, cfg.sqrt(cfg.stepSize), noise))
  {
  }

  /** The gradient returns vectors of its argument's dimension. */
  ghost predicate KeepsDimension(grad: State -> State) {
    forall s :: |grad(s)| == |s|
  }

  /** With a gradient of the right dimension, `exp` positive, a positive step size, a state
      of positive density, enough noise vectors of its shape and draws in [0, 1), no
      denominator is ever zero: every state of the chain has the dimension of `x0` and
      positive density, so the run never fails. In zero dimensions every state is `x0`. */
  lemma {:induction false} PositiveChainNeverFails(cfg: Config, x0: State, noises: seq<seq<real>>, draws: seq<real>, m: nat)
    requires cfg.stepSize > 0.0 && m <= |noises| && m <= |draws| && NoiseFits(noises, |x0|, m)
    requires KeepsDimension(cfg.grad) && forall t :: cfg.exp(t) > 0.0
    requires cfg.target(x0) > 0.0 && AllUnit(draws)
    ensures Chain(cfg, x0, noises, draws, m).Success?
    ensures forall k :: 0 <= k <= m ==> |Chain(cfg, x0, noises, draws, m).value[k]| == |x0|
    ensures forall k :: 0 <= k <= m ==> cfg.target(Chain(cfg, x0, noises, draws, m).value[k]) > 0.0
  {
    if m > 0 {
      PositiveChainNeverFails(cfg, x0, noises, draws, m - 1);
      var c := Chain(cfg, x0, noises, draws, m - 1).value;
      var x := c[m - 1];
      assert IsUnit(draws[m - 1]) && |noises[m - 1]| == |x|;
      var gx := cfg.grad(x);
      var p := Proposal(x, gx, cfg.stepSize, cfg.sqrt(cfg.stepSize), noises[m - 1]);
      assert |gx| == |x| && |cfg.grad(p)| == |p|;
      if |x0| > 0 {
        StepKeepsPositive(cfg, x, noises[m - 1], draws[m - 1]);
      } else {
        EmptyStateAlwaysAccepts(cfg, x, noises[m - 1], draws[m - 1]);
        assert p == x;
      }
      var y := Step(cfg, x, noises[m - 1], draws[m - 1]).value;
      assert Transition(cfg, noises, draws)(x, m - 1) == Success(y);
      var r := Chain(cfg, x0, noises, draws, m).value;
      assert r == c + [y];
      assert forall k :: 0 <= k < m ==> r[k] == c[k];
    }
  }

  /** From a state of positive density, with gradients of the right dimension, `exp` positive
      and a draw in [0, 1), an iteration divides by positive numbers only and reaches a state
      of positive density. */
  lemma StepKeepsPositive(cfg: Config, x: State, noise: seq<real>, u: real)
    requires cfg.stepSize > 0.0 && |noise| == |x| && |x| > 0
    requires |cfg.grad(x)| == |x|
    requires |cfg.grad(Proposal(x, cfg.grad(x), cfg.stepSize, cfg.sqrt(cfg.stepSize), noise))| == |x|
    requires forall t :: cfg.exp(t) > 0.0
    requires cfg.target(x) > 0.0 && IsUnit(u)
    ensures Step(cfg, x, noise, u).Success?
    ensures cfg.target(Step(cfg, x, noise, u).value) > 0.0
  {
    var gx := cfg.grad(x);
    var p := Proposal(x, gx, cfg.stepSize, cfg.sqrt(cfg.stepSize), noise);
    var gp := cfg.grad(p);
    assert !DividesByZero(cfg, x, p, gx) by {
      forall j | 0 <= j < |x|
        ensures Denominator(cfg, x, p, gx, j) > 0.0
      {
      }
    }
    if BelowAll(cfg, x, p, gx, gp, u) {
      var n := Numerator(cfg, x, p, gp, 0);
      var d := Denominator(cfg, x, p, gx, 0);
      assert 0.0 <= u < n / d;
      PositiveFactor(cfg.target(p), Kernel(cfg.exp, p[0], x[0], gp[0], cfg.stepSize), n, d, u);
    }
  }

  /** A non-negative draw below `n / b`, where `n = a * e` and `e`, `b` are positive, forces a positive `a`. */
  lemma PositiveFactor(a: real, e: real, n: real, b: real, u: real)
    requires e > 0.0 && b > 0.0 && n == a * e && 0.0 <= u < n / b
    ensures a > 0.0
  {
    assert n == (n / b) * b;
    assert n > 0.0;
  }
}
