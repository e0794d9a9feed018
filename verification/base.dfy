/** Small failure-carrying datatypes shared by the modules of this project. */
module Base {

  datatype Option<T> = None | Some(value: T)

  /** Either a result or an error (a thrown exception in the modelled code). */
  datatype Result<T, E> = Ok(value: T) | Err(error: E)

  /** The outcome of a check that produces no value. */
  datatype Outcome<E> = Pass | Fail(error: E)

  /** Sequencing of two checks: the first failure wins. */
  function Then<E>(first: Outcome<E>, second: Outcome<E>): (r: Outcome<E>)
    ensures r.Pass? <==> first.Pass? && second.Pass?
    ensures first.Fail? ==> r == first
  {
    if first.Fail? then first else second
  }
}
