/** The columns of the user table that authentication reads and writes. */
module Accounts {
  import opened Options

  /** Milliseconds since the epoch. */
  type Millis = int
  type UserId = string
  type RoleId = string

  /** The three lockout columns. */
  datatype Lock = Lock(attempts: nat, windowStart: Option<Millis>, lockedUntil: Option<Millis>)

  /** No failed logins on record. */
  const CLEAN := Lock(0, None, None)

  datatype User = User(
    id: UserId,
    roleId: RoleId,
    verified: bool,
    blocked: bool,
    password: Option<string>,
    tokenVersion: int,
    lock: Lock)

  /** What an access or refresh token says: its sub, rid and tv claims. */
  datatype Claims = Claims(userId: UserId, roleId: RoleId, tokenVersion: int)

  function ClaimsOf(u: User): Claims {
    Claims(u.id, u.roleId, u.tokenVersion)
  }
}
