/** The login handler over the user and refresh tables. */
module LoginHandlers {
  import opened Options
  import opened Accounts
  import opened Lockout

  datatype Response = UserNotFound | Answered(outcome: Outcome, tokens: Option<Claims>)

  /** A refresh token as it is signed: its random id and its expiry. */
  datatype Refresh = Refresh(id: nat, expiresAt: Millis)

  /** A row of the refresh table, with the claims its token carries. */
  datatype Session = Session(claims: Claims, token: Refresh, revoked: bool)

  class LoginHandler {
    /** Users that are not deleted, by their unique email. */
    var users: map<string, User>
    /** The refresh rows inserted, oldest first. */
    var sessions: seq<Session>

    constructor (users: map<string, User>)
      ensures this.users == users && sessions == []
    {
      this.users := users;
      sessions := [];
    }

    method UpdateLock(email: string, lock: Lock)
      requires email in users
      modifies this`users
      ensures users == old(users)[email := old(users)[email].(lock := lock)]
    {
      users := users[email := users[email].(lock := lock)];
    }

    method RejectInvalidCredentials(email: string, user: User, now: Millis) returns (r: Response)
      requires email in users
      modifies this`users
      ensures users == old(users)[email := old(users)[email].(lock := AfterFailure(user.lock, now))]
      ensures r == Answered(InvalidCredentials(users[email].lock.attempts >= CAPTCHA_ATTEMPT_THRESHOLD), None)
    {
      var windowStart := ResolveWindowStart(user.lock.windowStart, now);
      var attempts := 1;
      if user.lock.windowStart == Some(windowStart) {
        attempts := user.lock.attempts + 1;
      }
      var lockedUntil := None;
      if attempts >= LOCK_ATTEMPT_THRESHOLD {
        lockedUntil := Some(now + LOCK_DURATION_MS);
      }
      UpdateLock(email, Lock(attempts, Some(windowStart), lockedUntil));
      return Answered(InvalidCredentials(attempts >= CAPTCHA_ATTEMPT_THRESHOLD), None);
    }

    /**
     * One login. `check` and `write` are its two clock readings, `valid` the verdict on the password,
     * `rehash` the new hash when the stored one is of the legacy kind, `refresh` the token it would sign.
     */
    method Execute(
        email: string, check: Millis, write: Millis, valid: bool, rehash: Option<string>, refresh: Refresh)
      returns (r: Response)
      modifies this
      ensures r.UserNotFound? <==> email !in old(users)
      ensures r.UserNotFound? ==> users == old(users) && sessions == old(sessions)
      ensures users.Keys == old(users).Keys
      ensures email in old(users) ==>
        var u := old(users)[email];
        var isLocked := u.lock.lockedUntil.Some? && check < u.lock.lockedUntil.value;
        && (r.outcome.NotVerified? <==> !u.verified)
        && (r.outcome.Blocked? <==> u.verified && u.blocked)
        && (r.outcome.AccountLocked? <==> u.verified && !u.blocked && isLocked)
        && (r.outcome.AccountLocked? ==> r.outcome.until == u.lock.lockedUntil.value)
        && (r.outcome.Success? <==> u.verified && !u.blocked && !isLocked && u.password.Some? && valid)
        && (r.tokens.Some? <==> r.outcome.Success?)
        && (r.tokens.Some? ==> r.tokens.value == Claims(u.id, u.roleId, u.tokenVersion))
        && (r.outcome.Success? ==> users[email].lock == Lock(0, None, None))
        && (r.outcome.NotVerified? || r.outcome.Blocked? || r.outcome.AccountLocked? ==>
              users == old(users) && sessions == old(sessions))
      ensures forall other :: other in users && other != email ==> users[other] == old(users)[other]
      ensures email in old(users) ==>
        var (after, outcome) := Login(old(users)[email], check, write, valid);
        && r.outcome == outcome
        && users[email] == (if outcome.Success? && rehash.Some? then after.(password := rehash) else after)
        && r.tokens == (if outcome.Success? then Some(ClaimsOf(after)) else None)
      ensures sessions == old(sessions) +
        (if r.Answered? && r.tokens.Some? then [Session(r.tokens.value, refresh, false)] else [])
    {
      if email !in users {
        return UserNotFound;
      }
      var user := users[email];
      if !user.verified {
        return Answered(NotVerified, None);
      }
      if user.blocked {
        return Answered(Blocked, None);
      }
      if user.lock.lockedUntil.Some? && user.lock.lockedUntil.value > check {
        return Answered(AccountLocked(user.lock.lockedUntil.value), None);
      }
      if user.password.None? {
        r := RejectInvalidCredentials(email, user, write);
        return;
      }
      if !valid {
        r := RejectInvalidCredentials(email, user, write);
        return;
      }
      if rehash.Some? {
        users := users[email := users[email].(password := rehash)];
      }
      if user.lock.attempts != 0 || user.lock.lockedUntil.Some? || user.lock.windowStart.Some? {
        UpdateLock(email, CLEAN);
      }
      var claims := ClaimsOf(user);
      sessions := sessions + [Session(claims, refresh, false)];
      return Answered(Success, Some(claims));
    }
  }
}
