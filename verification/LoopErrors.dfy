/** How the loops over a connection end. */
module LoopErrors {
  import opened Framing

  datatype LoopError =
    | Cancelled
    | ClosedByServer
    | ReadingFailed(error: ReadError)
    | TunWriteFailed
    | TunnelWriteFailed
    | KeepaliveFailed
    | TunReadFailed
    | NotConnected
}
