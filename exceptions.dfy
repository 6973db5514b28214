/**
 * The exceptions that reach the controller or the global handler, one
 * constructor per Java class the handler tells apart.
 */
module Exceptions {
  import opened Constraints

  datatype Exception =
    /** AccountNotFoundException (unchecked), thrown by delete and update. */
    | AccountNotFound(message: string)
    /** MethodArgumentNotValidException: a @Valid request body broke its constraints. */
    | MethodArgumentNotValid(errors: seq<Violation>)
    /** MethodArgumentTypeMismatchException: a path variable could not be converted. */
    | ArgumentTypeMismatch(name: string, value: string, requiredType: string)
    /** HttpMessageNotReadableException: the request body is not readable JSON. */
    | MessageNotReadable
    /** IllegalArgumentException or a subclass of it. */
    | IllegalArgument(message: string)
    /** jakarta.validation.ConstraintViolationException: the entity failed bean validation when persisted. */
    | ConstraintViolation(violations: seq<Violation>)
    /** Any other RuntimeException, including the controller's own wrappers and store failures. */
    | Runtime(message: string)
    /** MissingServletRequestParameterException: a required query parameter is absent (a checked exception). */
    | MissingRequestParameter(name: string)
    /** Any other checked Exception. */
    | Checked(message: string)

  /** Whether the exception's class extends RuntimeException. */
  predicate IsRuntime(e: Exception)
  {
    !(e.MethodArgumentNotValid? || e.MissingRequestParameter? || e.Checked?)
  }
}
