/**
 * Failure-carrying results shared by the whole model.
 *
 * The library signals misuse in three ways, and the model keeps them apart:
 * a user assertion or user error (`taco_uassert`, `taco_uerror`, which throw),
 * an internal assertion or internal error (`taco_iassert`, `taco_ierror`), and
 * `taco_not_supported_yet` for a case the library does not handle. A
 * standard-library conversion that throws (`std::stod`) is a fourth.
 */
module Results {

  datatype Option<+T> = None | Some(value: T)

  datatype Error =
    | UserError(what: string)
    | InternalError(what: string)
    | NotSupportedYet
    | InvalidArgument(what: string)

  datatype Result<+T> = Success(value: T) | Failure(error: Error) {
    predicate IsFailure() { Failure? }

    function PropagateFailure<U>(): Result<U>
      requires Failure?
    {
      Failure(error)
    }

    function Extract(): T
      requires Success?
    {
      value
    }
  }
}
