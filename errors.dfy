/**
 * The errors of the TCP number service. Each constructor stands for one
 * `errors.New` or `fmt.Errorf("...: %w", ...)` of the Go code; wrapping
 * constructors keep the error they wrap.
 */
module Errors {

  /** What a connection's `Read` or `Write` may fail with. */
  datatype IoError = EOF | ConnectionReset

  /** `context.Canceled` and `context.DeadlineExceeded`. */
  datatype ContextError = Canceled | DeadlineExceeded

  datatype Error =
    | ReadLargeNumber                          // "read large number"
    | BufIsSmall                               // "buf is small"
    | ReadBytesFromConnection(io: IoError)     // "read bytes from connection: %w" (Protocol)
    | WriteBytesToConnection(io: IoError)      // "write bytes to connection: %w" (Protocol)
    | ReadBytesFromConn(io: IoError)           // "read bytes from conn: %w" (connection loops)
    | WriteResponse(io: IoError)               // "write response: %w"
    | HandleNumber(cause: Error)               // "handle number: %w"
    | CalculateSumOfSquares(cause: Error)      // "calculate sum of squares: %w"
    | ReadNumbersFromSet(cause: Error)         // "read numbers from set: %w"
    | ContextDone(ctx: ContextError)           // ctx.Err()
}
