/** Types that several parts share. */
module Common {

  /** The largest integer that every smaller one is told apart from in a JavaScript number. */
  const MAX_SAFE_INTEGER: int := 9_007_199_254_740_991

  /** An item id is decimal text without a leading zero; the number it denotes stands for it. */
  type ItemId = nat

  /** A cryptographic digest, keyed or not, idealised: it determines what it was taken of. */
  datatype Digest<T> = Hash(of: T)

  /** What to do with a projection candidate. */
  datatype Decision = Apply | Noop | Reconcile

  datatype DeliveryState = Pending | InFlight | Delivered | RetryableFailure | TerminalFailure | Ambiguous

  predicate Final(state: DeliveryState) {
    state.Delivered? || state.TerminalFailure? || state.Ambiguous?
  }
}
