/**
 * The counter `reducer` of src/sample.tsx: a state machine over one number
 * driven by four kinds of action. Numbers are integers here.
 */
module Counter {

  /** The tagged union `Action`, one constructor per `type`. */
  datatype Action =
    | Increment(amount: int)
    | Decrement(amount: int)
    | Reset(value: int)
    | Time(value: int)

  /** `reducer(state, action)`: the next state. */
  function Reducer(state: int, action: Action): (next: int)
  {
    match action
    case Increment(amount) => state + amount
    case Decrement(amount) => state - amount
    case Reset(value) => value
    case Time(value) => state * value
  }

  /** Adding and then taking away the same amount, in either order, gives
      back the state one started from. */
  lemma IncrementDecrementInverse(state: int, amount: int)
    ensures Reducer(Reducer(state, Increment(amount)), Decrement(amount)) == state
    ensures Reducer(Reducer(state, Decrement(amount)), Increment(amount)) == state
  {
  }

  /** Increment and decrement move the state by exactly the amount, whatever
      the state is; a decrement is an increment by the negated amount. */
  lemma IncrementDecrementShift(state: int, amount: int)
    ensures Reducer(state, Increment(amount)) - state == amount
    ensures state - Reducer(state, Decrement(amount)) == amount
    ensures Reducer(state, Decrement(amount)) == Reducer(state, Increment(-amount))
  {
  }

  /** Two increments add up. */
  lemma IncrementsCompose(state: int, a: int, b: int)
    ensures Reducer(Reducer(state, Increment(a)), Increment(b)) == Reducer(state, Increment(a + b))
  {
  }

  /** Reset yields its value whatever the state was, so resetting twice is
      the same as resetting once. */
  lemma ResetIgnoresState(s1: int, s2: int, value: int)
    ensures Reducer(s1, Reset(value)) == value
    ensures Reducer(s1, Reset(value)) == Reducer(s2, Reset(value))
    ensures Reducer(Reducer(s1, Reset(value)), Reset(value)) == Reducer(s1, Reset(value))
  {
  }

  /** Time multiplies the state by its value, and two of them multiply. */
  lemma TimeMultiplies(state: int, a: int, b: int)
    ensures Reducer(state, Time(a)) == state * a
    ensures Reducer(Reducer(state, Time(a)), Time(b)) == Reducer(state, Time(a * b))
  {
    assert (state * a) * b == state * (a * b);
  }

  /** The three well-typed calls that follow the reducer in the source. */
  lemma ReducerExamples()
    ensures Reducer(100, Increment(10)) == 110
    ensures Reducer(100, Decrement(55)) == 45
    ensures Reducer(500, Reset(0)) == 0
  {
  }
}
