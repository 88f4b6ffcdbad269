/** Slice sampling without interval shrinkage: the inner rejection loop of one outer
    iteration, the trace of all outer iterations, and the samples kept after burn-in. */
module Slice {
  import opened Wrappers
  import opened States

  /** The draws of one try of the inner loop: the unit draw behind the level `u`
      and the vector drawn by `np.random.rand(dimension)`. */
  datatype Try = Try(unit: real, offsets: seq<real>)

  /** Every supplied vector has the dimension the sampler draws with. */
  predicate Dimensioned(tries: seq<Try>, d: nat) {
    forall k :: 0 <= k < |tries| ==> |tries[k].offsets| == d
  }

  /** `np.random.uniform(low=0, high=target(x))`, computed as low + (high - low) * unit:
      for a positive density and a unit draw, the level lies in [0, target(x)). */
  function Level(target: Density, x: State, unit: real): (u: real)
    ensures target(x) > 0.0 && IsUnit(unit) ==> 0.0 <= u < target(x)
  {
    0.0 + (target(x) - 0.0) * unit
  }

  /** `x - width / 2 + width * offsets`, coordinate by coordinate. */
  function Proposal(x: State, width: real, offsets: seq<real>): (p: State)
    requires |offsets| == |x|
    ensures |p| == |x|
  {
    if |x| == 0 then []
    else [x[0] - width / 2.0 + width * offsets[0]] + Proposal(x[1..], width, offsets[1..])
  }

  /** Coordinate `j` of a proposal depends on coordinate `j` of `x` and of the offsets only. */
  lemma {:induction false} ProposalAt(x: State, width: real, offsets: seq<real>, j: nat)
    requires |offsets| == |x| && j < |x|
    ensures Proposal(x, width, offsets)[j] == x[j] - width / 2.0 + width * offsets[j]
  {
    if j > 0 {
      ProposalAt(x[1..], width, offsets[1..], j - 1);
    }
  }

  /** `np.all(p < x)`: true of two empty vectors. */
  predicate AllBelow(p: State, x: State)
    requires |p| == |x|
  {
    forall j :: 0 <= j < |x| ==> p[j] < x[j]
  }

  /** How one try ends the inner loop: adopting the proposal, keeping `x`, or not at all. */
  datatype Outcome = Adopt | Stay | Retry

  /** The inner loop body: the density test adopts the proposal; failing that, a proposal
      below `x` in every coordinate ends the loop with `x` unchanged. */
  function Judge(target: Density, width: real, x: State, tr: Try): Outcome
    requires |tr.offsets| == |x|
  {
    var p := Proposal(x, width, tr.offsets);
    if target(p) > Level(target, x, tr.unit) then Adopt
    else if AllBelow(p, x) then Stay
    else Retry
  }

  /** The inner `while not done` loop from state `x`, starting at try number `c`: the new
      state and the number of tries used so far, or None when the tries run out first. */
  function Step(target: Density, width: real, x: State, tries: seq<Try>, c: nat): (r: Option<(State, nat)>)
    requires c <= |tries| && Dimensioned(tries, |x|)
    ensures r.Some? ==> c < r.value.1 <= |tries| && |r.value.0| == |x|
    decreases |tries| - c
  {
    if c == |tries| then None
    else
      match Judge(target, width, x, tries[c])
      case Adopt => Some((Proposal(x, width, tries[c].offsets), c + 1))
      case Stay => Some((x, c + 1))
      case Retry => Step(target, width, x, tries, c + 1)
  }

  /** The last state of a trace, or the initial state when there is none yet. */
  function Current(x0: State, s: seq<State>): State {
    if s == [] then x0 else s[|s| - 1]
  }

  /** The states after each of the first `m` outer iterations (the initial state excluded),
      and the number of tries they used. */
  function Trace(target: Density, width: real, x0: State, tries: seq<Try>, m: nat): (r: Option<(seq<State>, nat)>)
    requires Dimensioned(tries, |x0|)
    ensures r.Some? ==> |r.value.0| == m && r.value.1 <= |tries|
    ensures r.Some? ==> forall i :: 0 <= i < m ==> |r.value.0[i]| == |x0|
    decreases m
  {
    if m == 0 then Some(([], 0))
    else
      match Trace(target, width, x0, tries, m - 1)
      case None => None
      case Some((s, c)) =>
        match Step(target, width, Current(x0, s), tries, c)
        case None => None
        case Some((y, c')) => Some((s + [y], c'))
  }

  /** One more outer iteration extends the trace by the inner loop's result. */
  lemma TraceNext(target: Density, width: real, x0: State, tries: seq<Try>, t: nat, s: seq<State>, c: nat)
    requires Dimensioned(tries, |x0|) && Trace(target, width, x0, tries, t) == Some((s, c))
    ensures c <= |tries| && |Current(x0, s)| == |x0|
    ensures Trace(target, width, x0, tries, t + 1) ==
              match Step(target, width, Current(x0, s), tries, c)
              case None => None
              case Some((y, c')) => Some((s + [y], c'))
  {
  }

  /** The number of outer iterations: `n_samples * thinning + burn_in`. */
  function Iterations(n: nat, burnIn: nat, thinning: nat): nat {
    n * thinning + burnIn
  }

  /** The returned samples: the state after every outer iteration whose index is at least
      `burnIn`. The length is `n * thinning`: no state after burn-in is skipped. */
  function Samples(target: Density, width: real, x0: State, n: nat, burnIn: nat, thinning: nat, tries: seq<Try>): (r: Result<seq<State>, Error>)
    requires Dimensioned(tries, |x0|)
    ensures r.Failure? <==> Trace(target, width, x0, tries, Iterations(n, burnIn, thinning)).None?
    ensures r.Failure? ==> r.error == DrawsExhausted
    ensures r.Success? ==> |r.value| == n * thinning
    ensures r.Success? ==> forall k :: 0 <= k < n * thinning ==>
              r.value[k] == Trace(target, width, x0, tries, Iterations(n, burnIn, thinning)).value.0[burnIn + k]
  {
    match Trace(target, width, x0, tries, Iterations(n, burnIn, thinning))
    case None => Failure(DrawsExhausted)
    case Some((s, _)) => Success(s[burnIn..])
  }

  /** The states recorded over a trace, built as the outer loop builds them: after the
      iteration with index `i` its state is appended when `i >= burnIn`. In closed form this
      is the trace with its first `burnIn` states dropped. */
  function Kept(s: seq<State>, burnIn: nat): (r: seq<State>)
    ensures r == if |s| <= burnIn then [] else s[burnIn..]
  {
    if s == [] then []
    else
      var i := |s| - 1;
      var before := Kept(s[..i], burnIn);
      assert i > burnIn ==> s[..i][burnIn..] + [s[i]] == s[burnIn..];
      if i >= burnIn then before + [s[i]] else before
  }

  /** One more state is recorded exactly when its iteration index is `>= burnIn`. */
  lemma KeptNext(s: seq<State>, y: State, burnIn: nat)
    ensures Kept(s + [y], burnIn) == if |s| >= burnIn then Kept(s, burnIn) + [y] else Kept(s, burnIn)
  {
    assert (s + [y])[..|s|] == s;
  }

  /** The samples of a completed trace: every state from index `burnIn` on. */
  lemma SamplesOfTrace(target: Density, width: real, x0: State, n: nat, burnIn: nat, thinning: nat, tries: seq<Try>, s: seq<State>, c: nat)
    requires Dimensioned(tries, |x0|)
    requires Trace(target, width, x0, tries, Iterations(n, burnIn, thinning)) == Some((s, c))
    ensures Samples(target, width, x0, n, burnIn, thinning, tries) == Success(Kept(s, burnIn))
  {
  }

  /** Once the tries have run out, every longer run runs out too. */
  lemma {:induction false} ExhaustionPersists(target: Density, width: real, x0: State, tries: seq<Try>, m: nat, m': nat)
    requires Dimensioned(tries, |x0|) && m <= m'
    requires Trace(target, width, x0, tries, m).None?
    ensures Trace(target, width, x0, tries, m').None?
    decreases m'
  {
    if m < m' {
      ExhaustionPersists(target, width, x0, tries, m, m' - 1);
    }
  }

  /** The inner loop, try by try: every try before the last one used retried, and the last
      one either adopted its proposal, whose density exceeds the level `u`, or kept `x`
      because that proposal lies below `x` in every coordinate and failed the density test. */
  lemma {:induction false} StepOutcome(target: Density, width: real, x: State, tries: seq<Try>, c: nat)
    requires c <= |tries| && Dimensioned(tries, |x|)
    requires Step(target, width, x, tries, c).Some?
    ensures var (y, c') := Step(target, width, x, tries, c).value;
            && (forall k :: c <= k < c' - 1 ==> Judge(target, width, x, tries[k]) == Retry)
            && var tr := tries[c' - 1];
               var p := Proposal(x, width, tr.offsets);
               || (y == p && target(p) > Level(target, x, tr.unit))
               || (y == x && AllBelow(p, x) && !(target(p) > Level(target, x, tr.unit)))
    decreases |tries| - c
  {
    if Judge(target, width, x, tries[c]) == Retry {
      StepOutcome(target, width, x, tries, c + 1);
    }
  }

  /** The tries run out only when every remaining try retried. */
  lemma {:induction false} StepExhausted(target: Density, width: real, x: State, tries: seq<Try>, c: nat)
    requires c <= |tries| && Dimensioned(tries, |x|)
    ensures Step(target, width, x, tries, c).None? <==>
            forall k :: c <= k < |tries| ==> Judge(target, width, x, tries[k]) == Retry
    decreases |tries| - c
  {
    if c < |tries| {
      StepExhausted(target, width, x, tries, c + 1);
    }
  }

  /** Each proposal coordinate lies in [x_j - width/2, x_j + width/2). */
  lemma ProposalWithinWidth(x: State, width: real, offsets: seq<real>, j: nat)
    requires |offsets| == |x| && width > 0.0 && AllUnit(offsets) && j < |x|
    ensures x[j] - width / 2.0 <= Proposal(x, width, offsets)[j] < x[j] + width / 2.0
  {
    var o := offsets[j];
    assert IsUnit(o);
    assert 0.0 < width * (1.0 - o);
    assert 0.0 <= width * o;
    ProposalAt(x, width, offsets, j);
  }

  /** In zero dimensions every try ends the inner loop, since `np.all` of nothing is true. */
  lemma EmptyStateNeverRetries(target: Density, width: real, x: State, tr: Try)
    requires |x| == 0 && |tr.offsets| == 0
    ensures Judge(target, width, x, tr) != Retry
  {
  }
}
