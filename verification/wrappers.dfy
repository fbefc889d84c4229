/** Option and Result, the two shapes the service's store and handlers return. */
module Wrappers {

  /** An optional value: Rust's `Option<T>`. */
  datatype Option<+T> = None | Some(value: T)

  /** A value or an error: Rust's `Result<T, E>`. */
  datatype Result<+T, +E> = Success(value: T) | Failure(error: E) {

    /** Converts the error with `f`, as Rust's `?` does through a `From` impl. */
    function MapFailure<E2>(f: E -> E2): (r: Result<T, E2>)
      ensures r.Success? <==> this.Success?
      ensures r.Success? ==> r.value == this.value
      ensures r.Failure? ==> r.error == f(this.error)
    {
      match this
      case Success(v) => Success(v)
      case Failure(e) => Failure(f(e))
    }
  }
}
