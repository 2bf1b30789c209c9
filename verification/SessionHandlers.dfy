/** The refresh-token repository and the handlers that use it. */
module SessionHandlers {
  import opened Options
  import opened Accounts
  import S = Sessions

  class RefreshTokenRepository {
    var rows: seq<S.Row>

    constructor ()
      ensures rows == []
    {
      rows := [];
    }

    method Create(userId: UserId, token: S.Token, expiresAt: Millis)
      modifies this
      ensures rows == old(rows) + [S.Row(userId, token, expiresAt, false)]
    {
      rows := rows + [S.Row(userId, token, expiresAt, false)];
    }

    method FindByToken(token: S.Token) returns (r: Option<nat>)
      ensures r == S.FindByToken(rows, token)
      ensures r.Some? ==> r.value < |rows| && rows[r.value].token == token
    {
      r := S.FindByToken(rows, token);
    }

    method RevokeById(id: nat)
      requires id < |rows|
      modifies this
      ensures rows == S.RevokeById(old(rows), id)
    {
      rows := rows[id := rows[id].(revoked := true)];
    }

    method RevokeByToken(token: S.Token) returns (success: bool)
      modifies this
      ensures (rows, success) == S.RevokeByToken(old(rows), token)
    {
      success := exists i :: 0 <= i < |rows| && rows[i].token == token && !rows[i].revoked;
      rows := seq(|rows|, i requires 0 <= i < |rows| reads this =>
        if rows[i].token == token && !rows[i].revoked then rows[i].(revoked := true) else rows[i]);
      assert rows == S.RevokeByToken(old(rows), token).0;
    }

    method RevokeAllForUser(userId: UserId)
      modifies this
      ensures rows == S.RevokeAllForUser(old(rows), userId)
    {
      rows := seq(|rows|, i requires 0 <= i < |rows| reads this =>
        if rows[i].userId == userId then rows[i].(revoked := true) else rows[i]);
    }
  }

  class AuthHandlers {
    const refreshTokens: RefreshTokenRepository
    var users: map<UserId, S.Flags>
    var resets: map<string, S.ResetToken>
    var passwords: map<UserId, string>
    /** Which row each row replaced: history, not stored by the program. */
    ghost var parents: seq<Option<nat>>

    constructor (refreshTokens: RefreshTokenRepository)
      ensures this.refreshTokens == refreshTokens
      ensures users == map[] && resets == map[] && passwords == map[] && parents == []
    {
      this.refreshTokens := refreshTokens;
      users, resets, passwords := map[], map[], map[];
      parents := [];
    }

    /** The tables as the state the handlers are specified on. */
    ghost function Tables(): S.State
      reads this, refreshTokens
    {
      S.State(refreshTokens.rows, parents, users, resets)
    }

    /** The refresh handler; `jwtValid` is the verdict on the token's signature, `id` the id it would issue. */
    method RefreshTokens(token: S.Token, jwtValid: bool, now: Millis, id: nat, expiresAt: Millis) returns (r: S.Outcome)
      requires S.Fresh(refreshTokens.rows, id)
      modifies this`parents, refreshTokens
      ensures (Tables(), r) == S.Apply(old(Tables()), S.Refresh(token, jwtValid, now, id, expiresAt))
      ensures r.InvalidJwtPayload? <==> !jwtValid
      ensures var found := old(S.FindByToken(refreshTokens.rows, token)); var rows := old(refreshTokens.rows);
        && (r.TokenNotFound? <==> jwtValid && found.None?)
        && (r.TokenRevoked? <==> jwtValid && found.Some? && rows[found.value].revoked)
        && (r.Issued? <==>
              && jwtValid && found.Some? && !rows[found.value].revoked && now <= rows[found.value].expiresAt
              && token.userId in users && users[token.userId].verified && !users[token.userId].blocked)
      ensures !r.Issued? && !r.TokenRevoked? ==> refreshTokens.rows == old(refreshTokens.rows)
    {
      if !jwtValid {
        return S.InvalidJwtPayload;
      }
      var found := refreshTokens.FindByToken(token);
      if found.None? {
        return S.TokenNotFound;
      }
      var record := refreshTokens.rows[found.value];
      if record.revoked {
        refreshTokens.RevokeAllForUser(token.userId);
        return S.TokenRevoked;
      }
      if now > record.expiresAt {
        return S.TokenExpired;
      }
      if token.userId !in users {
        return S.UserNotFound;
      }
      var user := users[token.userId];
      if !user.verified {
        return S.NotVerified;
      }
      if user.blocked {
        return S.Blocked;
      }
      refreshTokens.RevokeById(found.value);
      var next := S.Token(id, token.userId);
      refreshTokens.Create(token.userId, next, expiresAt);
      parents := parents + [Some(found.value)];
      return S.Issued(next);
    }

    method Logout(token: S.Token, jwtValid: bool) returns (success: bool)
      modifies refreshTokens
      ensures (Tables(), S.LoggedOut(success)) == S.Apply(old(Tables()), S.Logout(token, jwtValid))
      ensures success <==> jwtValid && S.IsUnrevoked(old(refreshTokens.rows), token)
      ensures jwtValid ==> !S.IsUnrevoked(refreshTokens.rows, token)
      ensures !jwtValid ==> refreshTokens.rows == old(refreshTokens.rows)
    {
      if !jwtValid {
        return false;
      }
      success := refreshTokens.RevokeByToken(token);
    }

    /** The reset handler. The user of a reset token exists: its row references the user's. */
    method ResetPassword(resetToken: string, newPassword: string, now: Millis) returns (r: S.Outcome)
      modifies this`resets, this`passwords, refreshTokens
      ensures (Tables(), r) == S.Apply(old(Tables()), S.ResetPassword(resetToken, |newPassword|, now))
      ensures r.WeakPassword? <==> |newPassword| < 12
      ensures r.PasswordSet? <==>
        && |newPassword| >= 12 && resetToken in old(resets)
        && !old(resets)[resetToken].used && now < old(resets)[resetToken].expiresAt
      ensures r.PasswordSet? ==> passwords == old(passwords)[old(resets)[resetToken].userId := newPassword]
      ensures !r.PasswordSet? ==> passwords == old(passwords)
    {
      if |newPassword| < S.MIN_PASSWORD_LENGTH {
        return S.WeakPassword;
      }
      if resetToken !in resets || resets[resetToken].used || now >= resets[resetToken].expiresAt {
        return S.ResetTokenInvalid;
      }
      var record := resets[resetToken];
      passwords := passwords[record.userId := newPassword];
      resets := resets[resetToken := resets[resetToken].(used := true)];
      refreshTokens.RevokeAllForUser(record.userId);
      return S.PasswordSet;
    }

    /** The change handler; `currentValid` is the verdict on the current password. */
    method ChangePassword(userId: UserId, currentValid: bool, newPassword: string) returns (r: S.Outcome)
      modifies this`passwords, refreshTokens
      ensures r.WeakPassword? <==> |newPassword| < 12
      ensures r.UserNotFound? <==> !r.WeakPassword? && userId !in users
      ensures r.PasswordNotConfigured? <==> !r.WeakPassword? && !r.UserNotFound? && userId !in old(passwords)
      ensures r.CurrentPasswordInvalid? <==>
        !r.WeakPassword? && !r.UserNotFound? && !r.PasswordNotConfigured? && !currentValid
      ensures r.PasswordSet? <==>
        |newPassword| >= 12 && userId in users && userId in old(passwords) && currentValid
      ensures passwords == if r.PasswordSet? then old(passwords)[userId := newPassword] else old(passwords)
      ensures Tables() == if r.PasswordSet? then S.Apply(old(Tables()), S.ChangePassword(userId)).0 else old(Tables())
    {
      if |newPassword| < S.MIN_PASSWORD_LENGTH { return S.WeakPassword; }
      if userId !in users { return S.UserNotFound; }
      if userId !in passwords { return S.PasswordNotConfigured; }
      if !currentValid { return S.CurrentPasswordInvalid; }
      passwords := passwords[userId := newPassword];
      refreshTokens.RevokeAllForUser(userId);
      return S.PasswordSet;
    }
  }
}
