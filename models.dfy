/**
 * The records the controllers exchange with their callers and keep in the
 * store: users, catalog items, inventory rows, the response records and the
 * process-wide best-score pair.  They carry no behaviour of their own.
 */
module Models {

  datatype Option<T> = None | Some(value: T)

  /** The HTTP status class with which a controller action answers a failure. */
  datatype Status = BadRequest | NotFound | Unauthorized | InternalServerError

  /**
   * The machine-readable codes carried by the source's error responses, one
   * constructor per code string (ProgressionNotFound for PROGRESSION_NOT_FOUND,
   * and so on); the last two have no code string of their own.
   */
  datatype ErrorCode =
    | ProgressionNotFound
    | ProgressionExists
    | NoProgression
    | InsufficientClicks
    | NoProgressions
    | NoItems
    | InvalidToken
    | SeedFailed
    | UserNotFound
    | ItemNotFound
    | NotEnoughMoney
    | UsernameExists
    | InvalidPassword
    | ValidationFailed  // the automatic model-validation answer of an API controller
    | Unhandled         // an exception that escapes the action (answered with status 500)

  /** The outcome of a controller action: a payload, or a status with an error code. */
  datatype Result<T> = Ok(value: T) | Err(status: Status, code: ErrorCode)

  datatype UserRole = User | Admin

  /** A stored user (the source's User entity, with the field names its controllers
      use); `password` holds the hash, never the clear text. */
  datatype Account = Account(id: int, username: string, password: string, role: UserRole)

  /** The projection of a user that the API hands out. */
  datatype UserPublic = UserPublic(id: int, username: string, role: UserRole)

  /** The request body of Register and Login; a missing JSON field is `None`. */
  datatype UserPass = UserPass(username: Option<string>, password: Option<string>)

  /** The request body of UpdateUser. */
  datatype UserUpdate = UserUpdate(username: string, password: string, role: UserRole)

  /** A catalog entry; `maxQuantity` exists but no operation consults it. */
  datatype Item = Item(id: int, name: string, price: int, maxQuantity: int, clickValue: int)

  /** One row of the inventory table: how many of one item one user owns. */
  datatype InventoryEntry = InventoryEntry(userId: int, itemId: int, quantity: int)

  datatype ClickResponse = ClickResponse(count: int, multiplier: int)

  datatype BestScoreResponse = BestScoreResponse(userId: int, bestScore: int)

  /** The process-wide best-score record (a static pair in the source, initially (0, 0)). */
  datatype ScoreRecord = ScoreRecord(userId: int, bestScore: int)

  function Max(a: int, b: int): int {
    if a >= b then a else b
  }
}
