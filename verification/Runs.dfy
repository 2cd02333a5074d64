/** Runs of a system given by a partial step function: any sequence of labels
    whose steps are all enabled. */
module Runs {
  import opened Bytes

  function Run<S, L>(step: (S, L) -> Option<S>, s: S, ls: seq<L>): Option<S> {
    if ls == [] then Some(s)
    else
      var r := Run(step, s, ls[..|ls| - 1]);
      if r.Some? then step(r.value, ls[|ls| - 1]) else None
  }

  lemma Nothing<S, L>(step: (S, L) -> Option<S>, s: S)
    ensures Run(step, s, []) == Some(s)
  {
  }

  lemma Extend<S, L>(step: (S, L) -> Option<S>, s: S, ls: seq<L>, l: L) returns (ls': seq<L>, t: S)
    requires Run(step, s, ls).Some? && step(Run(step, s, ls).value, l).Some?
    ensures ls' == ls + [l] && Run(step, s, ls') == Some(t) && step(Run(step, s, ls).value, l) == Some(t)
  {
    ls', t := ls + [l], step(Run(step, s, ls).value, l).value;
    assert ls'[..|ls|] == ls;
  }

  /** A run from where another one ended continues it. */
  lemma {:induction false} Append<S, L>(step: (S, L) -> Option<S>, s: S, xs: seq<L>, ys: seq<L>)
    requires Run(step, s, xs).Some?
    ensures Run(step, s, xs + ys) == Run(step, Run(step, s, xs).value, ys)
    decreases |ys|
  {
    if ys == [] {
      assert xs + ys == xs;
    } else {
      var front := ys[..|ys| - 1];
      assert (xs + ys)[..|xs + ys| - 1] == xs + front;
      Append(step, s, xs, front);
    }
  }
}
