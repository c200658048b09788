/** What a transport wants after a read or a write. */
module Transports {
  datatype Hint = NoHint | ReadReady | WriteReady | Failed
}
