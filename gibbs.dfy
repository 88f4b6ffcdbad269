/** Systematic-scan Gibbs sampling: one sweep updates the coordinates in index order,
    each conditional seeing the coordinates already updated in the same sweep. */
module Gibbs {
  import opened States

  /** The conditional draw for one coordinate. It receives the whole working vector; its
      second argument is the number of the sweep, which stands for the draw's own randomness. */
  type Conditional = (State, nat) -> real

  /** The working vector after the first `m` coordinate updates of sweep `t`: coordinate `i`
      is overwritten with `conds[i]` applied to the vector as it stands at that moment. */
  function SweepPrefix(conds: seq<Conditional>, x: State, t: nat, m: nat): (y: State)
    requires m <= |conds| && m <= |x|
    ensures |y| == |x|
    ensures y[m..] == x[m..]
    decreases m
  {
    if m == 0 then x
    else
      var z := SweepPrefix(conds, x, t, m - 1);
      z[m - 1 := conds[m - 1](z, t)]
  }

  /** One full sweep: every conditional in turn. Coordinates without a conditional keep their values. */
  function Sweep(conds: seq<Conditional>, x: State, t: nat): (y: State)
    requires |conds| <= |x|
    ensures |y| == |x|
    ensures y[|conds|..] == x[|conds|..]
  {
    SweepPrefix(conds, x, t, |conds|)
  }

  /** The working vector after `k` sweeps from `x0`; sweep number `k - 1` is the last one.
      Coordinates without a conditional never change. */
  function AfterSweeps(conds: seq<Conditional>, x0: State, k: nat): (y: State)
    requires k == 0 || |conds| <= |x0|
    ensures |y| == |x0|
    ensures |conds| <= |x0| ==> y[|conds|..] == x0[|conds|..]
  {
    if k == 0 then x0 else Sweep(conds, AfterSweeps(conds, x0, k - 1), k - 1)
  }

  /** The states after 0, 1, ..., n sweeps from `x0`. */
  function Run(conds: seq<Conditional>, x0: State, n: nat): (r: seq<State>)
    requires n == 0 || |conds| <= |x0|
    ensures |r| == n + 1
    ensures forall k :: 0 <= k <= n ==> r[k] == AfterSweeps(conds, x0, k)
  {
    if n == 0 then [x0] else Run(conds, x0, n - 1) + [AfterSweeps(conds, x0, n)]
  }

  /** Later updates of a sweep never touch the coordinates already written. */
  lemma {:induction false} PrefixStable(conds: seq<Conditional>, x: State, t: nat, i: nat, m: nat)
    requires i <= m <= |conds| && m <= |x|
    ensures SweepPrefix(conds, x, t, m)[..i] == SweepPrefix(conds, x, t, i)[..i]
    decreases m
  {
    if i < m {
      PrefixStable(conds, x, t, i, m - 1);
      var z := SweepPrefix(conds, x, t, m - 1);
      assert SweepPrefix(conds, x, t, m)[..i] == z[..i];
    }
  }

  /** Sweep order: the new value of coordinate `i` is `conds[i]` applied to the vector whose
      coordinates `0 .. i-1` already hold their new values from this sweep and whose
      coordinates `i ..` still hold the values from before the sweep. */
  lemma SweepOrder(conds: seq<Conditional>, x: State, t: nat, i: nat)
    requires i < |conds| <= |x|
    ensures var before := SweepPrefix(conds, x, t, i);
            && Sweep(conds, x, t)[i] == conds[i](before, t)
            && before[..i] == Sweep(conds, x, t)[..i]
            && before[i..] == x[i..]
  {
    PrefixStable(conds, x, t, i, |conds|);
    PrefixStable(conds, x, t, i + 1, |conds|);
    var y := Sweep(conds, x, t);
    var after := SweepPrefix(conds, x, t, i + 1);
    assert y[..i + 1][i] == after[..i + 1][i];
  }
}
