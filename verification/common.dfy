/** Shared vocabulary: identifiers, time, optional values and the errors the store raises. */
module Common {

  /** Milliseconds since the epoch, as a JavaScript `Date` holds them. */
  type Time = int

  /** Database identifiers. The store hands them out from a counter, so they are naturals here. */
  type FeedId = nat
  type UserId = nat
  type NewsletterId = nat

  /** A nullable column or an optional argument. */
  datatype Option<+T> = None | Some(value: T)

  /** What a call can throw. */
  datatype Error =
    | RecordNotFound              // Prisma's update/delete of a row that does not exist
    | UniqueConstraintViolation   // Prisma error code P2002
    | StoreFailure                // any other persistence error
    | FeedNotFound(feedId: FeedId)
    | InvalidFeedUrl
    | Unauthorized
    | NoArticlesFound
    | FetchFailed                 // the network fetch or the parse of a feed failed

  /** The value a call returns, or the error it throws. */
  datatype Result<+T> = Success(value: T) | Failure(error: Error)
}
