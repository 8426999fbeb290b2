/** Values shared by every page of the front end: absent values, JavaScript's
    truthiness of strings, the session user and the outcome of a backend call. */
module Common {

  /** A JavaScript value that may be `null` or `undefined`. */
  datatype Option<+T> = None | Some(value: T)

  /** The outcome of a validation or a backend call: a value or an error message. */
  datatype Result<+R> = Success(value: R) | Failure(error: string)

  /** JavaScript truthiness of a value that is absent or a string: `undefined`,
      `null` and the empty string are falsy, every other string is truthy. */
  predicate Truthy(s: Option<string>)
  {
    s.Some? && s.value != ""
  }

  /** `a || fallback` for an optional string `a`. */
  function OrElse(a: Option<string>, fallback: string): string
  {
    if Truthy(a) then a.value else fallback
  }

  /** What an awaited axios call produces: the response body, or the error it
      throws, carrying `error.response?.data?.message` (None when the server
      sent none) and `error.message`. */
  datatype Response<+T> = Ok(data: T) | Failed(serverMessage: Option<string>, message: string)

  /** The logged-in user as the authentication context hands it over: the role
      is compared as a string, `hasVoted` may be missing. */
  datatype User = User(role: string, hasVoted: Option<seq<string>>)

  const AdminRole := "admin"

  /** The text and date fields of an election form, shared by the creation
      page and the edit dialog of the election page. */
  datatype TextField = Title | Description
  datatype DateField = StartDate | EndDate

  /** `user?.role === 'admin'`. */
  predicate IsAdmin(user: Option<User>)
  {
    user.Some? && user.value.role == AdminRole
  }
}
