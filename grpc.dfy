/**
 * The part of gRPC the core sees: opaque client-connection handles, status
 * codes and errors, the outcome of dialing, and the dial options the manager
 * installs.
 */
module Grpc {
  /**
   * A `*grpc.ClientConn`, as an opaque identity. `grpc.NewClient` returns a
   * new object on every successful call; the manager models that by drawing
   * serial numbers from a counter.
   */
  datatype Handle = Handle(serial: nat)

  /** The gRPC status codes other than OK (an OK status is a nil error). */
  datatype Code =
    | Canceled | Unknown | InvalidArgument | DeadlineExceeded | NotFound
    | AlreadyExists | PermissionDenied | ResourceExhausted | FailedPrecondition
    | Aborted | OutOfRange | Unimplemented | Internal | Unavailable | DataLoss
    | Unauthenticated

  /** The two errors a `context.Context` reports once it is done. */
  datatype ContextError = ContextCanceled | ContextDeadlineExceeded

  /** A non-nil Go `error` as seen by the core. */
  datatype Error =
    | StatusError(code: Code, message: string)
    | ContextErr(reason: ContextError)
    | DialError(message: string)

  /** `status.Code(err)`: errors that carry no gRPC status read as Unknown. */
  function CodeOf(e: Error): Code {
    if e.StatusError? then e.code else Unknown
  }

  /** The interceptor's retry classification. */
  predicate IsTransient(e: Error) {
    CodeOf(e) == DeadlineExceeded || CodeOf(e) == Unavailable
  }

  /** What one call of `grpc.NewClient` yields. */
  datatype DialResult = Dialed | DialFailed(err: Error)

  /** The dial options the manager passes to `grpc.NewClient`. */
  datatype DialOption =
    | InsecureTransportCredentials
    | RoundRobinServiceConfig
    | RetryUnaryInterceptor
}
