/** Shared result types and the representation of time. */
module Common {

  datatype Option<+T> = None | Some(value: T)

  /** The errors the core returns, one constructor per distinct error value of the source. */
  datatype Error =
    | PasswordMismatch  // "password does not match" (signup confirmation, wrong sign-in password)
    | AccountLocked     // "account is locked"
    | InvalidToken      // "invalid token": the stored session does not match the token's claims
    | RowNotFound       // sqlx's RowNotFound, raised through `ok_or`
    | UniqueViolation   // the database refuses an INSERT whose primary key already exists
    | MalformedToken    // the token library cannot decode the token

  datatype Result<+T> = Ok(value: T) | Err(error: Error)

  /** Instants are integer epoch seconds; the clock is always a parameter. */
  type Timestamp = int

  function Min(a: int, b: int): int { if a <= b then a else b }

  function Max(a: int, b: int): int { if a >= b then a else b }
}
