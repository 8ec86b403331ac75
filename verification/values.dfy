/** Values shared by the pages: nullable fields and the way an awaited
    service call settles. Every network call of the pages is modelled as an
    input of type `Settled`, so each handler becomes a pure transition. */
module Values {

  /** A value that may be `null` on the page (`string | null`, `User | null`). */
  datatype Option<+T> = None | Some(value: T)

  /** How an awaited promise settled: resolved with its payload, or rejected.
      The pages catch every error alike (network failure or non-2xx status),
      so a rejection carries no detail. */
  datatype Settled<+T> = Fulfilled(value: T) | Rejected
}
