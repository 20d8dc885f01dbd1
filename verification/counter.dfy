/**
 The counter app: one integer slice driven by INCREMENT and DECREMENT.
 The count is a mathematical integer; JavaScript numbers only lose precision
 beyond 2^53, which is not modelled.
 */
module Counter {
  import Store

  datatype State = State(count: int)

  /** Every action type the store can be handed; `Unrecognised(kind)` stands for
      any `type` other than those of the other constructors; `kind` is never one of their type strings. */
  datatype Action = Increment | Decrement | Unrecognised(kind: string)

  /** `initialState`. */
  const Initial: State := State(0)

  /** `counterReducer`. */
  function Reduce(s: State, a: Action): (r: State)
    ensures a.Increment? ==> r.count == s.count + 1
    ensures a.Decrement? ==> r.count == s.count - 1
    ensures a.Unrecognised? ==> r == s
  {
    match a
    case Increment => s.(count := s.count + 1)
    case Decrement => s.(count := s.count - 1)
    case Unrecognised(_) => s
  }

  /** INCREMENT and DECREMENT undo each other, in either order, from any count. */
  lemma IncrementDecrementCancel(s: State)
    ensures Reduce(Reduce(s, Increment), Decrement) == s
    ensures Reduce(Reduce(s, Decrement), Increment) == s
  {
  }

  /** The count after any dispatch sequence is the start count plus #INCREMENT minus #DECREMENT. */
  lemma {:induction false} RunCount(s: State, actions: seq<Action>)
    ensures Store.Run(Reduce, s, actions).count
         == s.count + multiset(actions)[Increment] - multiset(actions)[Decrement]
    decreases |actions|
  {
    if |actions| > 0 {
      var front := actions[..|actions| - 1];
      var last := actions[|actions| - 1];
      assert actions == front + [last];
      RunCount(s, front);
    }
  }

  /** From `initialState` the count is exactly #INCREMENT minus #DECREMENT; it may be negative. */
  lemma CountFromInitial(actions: seq<Action>)
    ensures Store.Run(Reduce, Initial, actions).count
         == multiset(actions)[Increment] as int - multiset(actions)[Decrement] as int
  {
    RunCount(Initial, actions);
  }

  /** INCREMENT, INCREMENT, DECREMENT from `initialState` ends at 1. */
  lemma IncrementIncrementDecrement()
    ensures Store.Run(Reduce, Initial, [Increment, Increment, Decrement]) == State(1)
  {
    CountFromInitial([Increment, Increment, Decrement]);
  }
}
