/** What a controller answers: a value, or one of the errors the handlers turn
    into an HTTP status and a message. */
module Responses {

  /** Why a document store `save` threw: a schema validator failed or a unique
      index was hit. */
  datatype Violation =
    | Required(path: string)
    | NotInEnum(path: string, value: string)
    | DuplicateKey(path: string, value: string)

  datatype Error =
    | BadRequest(message: string)                          // 400 from an explicit guard
    | ItemNotFound(itemName: string)                       // 400 "Inventory item not found: <name>"
    | InsufficientStock(itemName: string, available: int)  // 400 "Insufficient stock for <name>. Available: <n>"
    | InvalidCredentials                                   // 400 "Invalid credentials"
    | IllegalArguments                                     // 500 "Illegal arguments": bcrypt.compare rejected its input
    | Forbidden(message: string)                           // 403
    | NotFound(message: string)                            // 404
    | SaveFailed(status: int, violation: Violation)        // a save threw; the handler's catch answers `status`

  datatype Result<T> = Ok(value: T) | Err(error: Error)

  /** The HTTP status the handler sends for an error. */
  function Status(e: Error): int
  {
    match e
    case BadRequest(_) => 400
    case ItemNotFound(_) => 400
    case InsufficientStock(_, _) => 400
    case InvalidCredentials => 400
    case IllegalArguments => 500
    case Forbidden(_) => 403
    case NotFound(_) => 404
    case SaveFailed(status, _) => status
  }
}
