/** Failure values shared by the Order model.
    Every failure of the modelled code is an ArgumentError; the tag says which check raised it. */
module Results {

  /** The three checks of the Order entity that raise. */
  datatype OrderError =
    | InvalidStatus      // the fulfillment status is not one of the five allowed symbols
    | DuplicateProduct   // add_product with a name already in the product table
    | ProductNotFound    // remove_product with a name not in the product table

  /** A value that may be absent (Ruby's nil). */
  datatype Option<+T> = None | Some(value: T)

  /** A value, or the error the operation raised instead. */
  datatype Result<+T> = Success(value: T) | Failure(error: OrderError)

  /** Success or failure of an operation that returns nothing useful. */
  datatype Outcome = Pass | Fail(error: OrderError)
}
