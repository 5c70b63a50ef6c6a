/** Results and the errors that a fuzzing run can raise. */
module Outcomes {

  /** The Python exceptions the core can raise, by cause. */
  datatype Error =
    | EmptyList       // ValueError: np.random.choice, min or max on an empty list
    | EmptyRange      // ValueError: random.randint(a, b) with a > b
    | ZeroEnergy      // AssertionError: the energies of the corpus sum to zero
    | WrongArity      // TypeError: a mutator called with an argument it does not take
    | ExecutorFailed  // whatever the executor raised

  datatype Result<+T> = Success(value: T) | Failure(error: Error)

  datatype Option<+T> = None | Some(value: T)
}
