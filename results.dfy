/** Option and Result values, and the error kinds the API layer reports. */
module Results {

  datatype Option<+T> = None | Some(value: T) {
    /** The value if present, otherwise `default` (Python's `d.get(key, default)`). */
    function GetOr(default: T): T {
      match this
      case Some(v) => v
      case None => default
    }
  }

  /** The error responses of the backend API, one constructor per kind of message. */
  datatype ApiError =
    | Invalid(message: string)          // a validation failure, with the source's exact message
    | NotFound(message: string)         // "Book not found", "Item not found", "Order not found"
    | OrderMissing(orderId: int)        // "Order <id> not found"
    | InsufficientStock(available: int) // "Insufficient stock (available <n>)"
    | CannotIncrease(delta: int)        // "Insufficient stock to increase quantity by <delta>"
    | ExceedsTotal                      // "Payment amount exceeds order total"
    | MissingKey(key: string)           // a KeyError raised inside a transaction
    | Rejected(reason: string)          // the database refused a statement
    | Raised(text: string)              // an exception the handler reports as `str(e)`

  /** An API response: `{"status": "success", "data": value}` or `{"status": "error", ...}`. */
  datatype Result<+T> = Ok(value: T) | Err(error: ApiError)
}
