/**
 The part of a redux store the reducers rely on: every dispatched action is fed,
 in order, to the reducer together with the current state, and the result
 becomes the new state. Subscribers, middleware and `getState` are not modelled.
 */
module Store {

  /** The state after dispatching `actions`, in order, starting from `s`. */
  function Run<S, A>(reduce: (S, A) -> S, s: S, actions: seq<A>): S
    decreases |actions|
  {
    if |actions| == 0 then s
    else reduce(Run(reduce, s, actions[..|actions| - 1]), actions[|actions| - 1])
  }

  /** Dispatching `xs` and then `ys` is dispatching `xs + ys`. */
  lemma {:induction false} RunAppend<S, A>(reduce: (S, A) -> S, s: S, xs: seq<A>, ys: seq<A>)
    ensures Run(reduce, s, xs + ys) == Run(reduce, Run(reduce, s, xs), ys)
    decreases |ys|
  {
    if |ys| > 0 {
      var zs := xs + ys;
      assert zs[..|zs| - 1] == xs + ys[..|ys| - 1];
      assert zs[|zs| - 1] == ys[|ys| - 1];
      RunAppend(reduce, s, xs, ys[..|ys| - 1]);
    } else {
      assert xs + ys == xs;
    }
  }

  /** Dispatching a single action is one call of the reducer on the current state. */
  lemma RunOne<S, A>(reduce: (S, A) -> S, s: S, a: A)
    ensures Run(reduce, s, [a]) == reduce(s, a)
  {
    assert [a][..0] == [];
  }
}
