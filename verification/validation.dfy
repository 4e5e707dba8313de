/**
 The outcome vocabulary shared by the validators and form hooks: Python's
 `None`, the `ValidationError`s they raise (identified by what they report,
 not by their message text), and the result of a check.
 */
module Validation {

  datatype Option<+T> = None | Some(value: T)

  /** Python truthiness of an optional string: `None` and `""` are falsy. */
  predicate Truthy(s: Option<string>) {
    s.Some? && s.value != ""
  }

  datatype Error =
    | PasswordTooShort          // fewer than 8 characters
    | PasswordCharset           // a character outside the allowed set
    | PhoneFormat               // not a CIS-country number
    | TelegramFormat            // not 5-32 characters of [A-Za-z0-9_-]
    | TelegramEdge              // starts or ends with '_' or '-'
    | TooOld(maxYears: int)     // birth date before today minus maxYears
    | InFuture                  // birth date after today
    | PhotoTooLarge(maxSizeMb: int)
    | BadExtension              // not .jpg, .jpeg or .png
    | NameTooShort
    | NameTooLong
    | PasswordsDiffer
    | EmailTaken(email: string)       // registration: address already in use
    | EmailRegistered(email: string)  // profile update: address already in use
    | UserNotFound(email: string)     // password reset: no such address
    | InvalidEmail                    // login: no account with this address
    | InvalidPassword                 // login: password does not match
    | AccessBlocked                   // login: account inactive
    | Uncaught                        // a non-validation exception (a TypeError) escapes

  /** `Ok(v)` is a hook returning `v`; `Err(e)` is a hook raising `e`. */
  datatype Result<+T> = Ok(value: T) | Err(error: Error)
}
