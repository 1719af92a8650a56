/** Values shared by the three services: optional values, results with an
    error side, the closed role set and time stamps. */
module Common {

  datatype Option<+T> = None | Some(value: T)

  /** A service call either returns a value or fails with one of the
      errors the source throws. */
  datatype Result<+T, +E> = Ok(value: T) | Err(error: E)

  /** Milliseconds since the epoch, as JavaScript's `Date.now()`. */
  type Time = int

  /** Identifiers of rows. The database allocates them; here they are
      drawn from per-table counters. */
  type Id = nat

  /** The closed role set of the account directory. */
  datatype Role = USER | EXPERT | ADMIN

  /** The role name as stored in the database and in tokens. */
  function RoleName(role: Role): string
  {
    match role
    case USER => "USER"
    case EXPERT => "EXPERT"
    case ADMIN => "ADMIN"
  }

  /** `validRoles.includes(s)`: accepts exactly the three role names. */
  function ParseRole(s: string): (r: Option<Role>)
    ensures r.Some? <==> s in ["USER", "EXPERT", "ADMIN"]
    ensures r.Some? ==> RoleName(r.value) == s
  {
    if s == "USER" then Some(USER)
    else if s == "EXPERT" then Some(EXPERT)
    else if s == "ADMIN" then Some(ADMIN)
    else None
  }

  /** A JavaScript string is falsy when it is absent or empty. */
  predicate Present(s: Option<string>)
  {
    s.Some? && s.value != ""
  }
}
