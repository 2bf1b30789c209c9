/** The version service, the token check and the user handlers over the user table and Redis. */
module TokenVersionService {
  import opened Options
  import opened Accounts
  import opened TokenVersions
  import AC = AccessClaims

  class UserTable {
    var rows: map<UserId, User>

    constructor (rows: map<UserId, User>)
      ensures this.rows == rows
    {
      this.rows := rows;
    }

    method FindById(userId: UserId) returns (r: Option<User>)
      ensures r == if userId in rows then Some(rows[userId]) else None
    {
      if userId in rows { return Some(rows[userId]); }
      return None;
    }

    method Update(userId: UserId, payload: AC.Payload) returns (found: bool)
      modifies this
      ensures found == (userId in old(rows))
      ensures rows == if found then old(rows)[userId := AC.Updated(old(rows)[userId], payload)] else old(rows)
    {
      if userId !in rows { return false; }
      var u := rows[userId];
      rows := rows[userId := u.(
        roleId := if payload.roleId.Some? then payload.roleId.value else u.roleId,
        verified := if payload.verified.Some? then payload.verified.value else u.verified,
        blocked := if payload.blocked.Some? then payload.blocked.value else u.blocked,
        password := if payload.password.Some? then payload.password.value else u.password,
        lock := if payload.lock.Some? then payload.lock.value else u.lock)];
      return true;
    }

    method IncrementTokenVersion(userId: UserId) returns (r: Option<int>)
      modifies this
      ensures userId !in old(rows) ==> r.None? && rows == old(rows)
      ensures userId in old(rows) ==>
        var v := old(rows)[userId].tokenVersion + 1;
        r == Some(v) && rows == old(rows)[userId := old(rows)[userId].(tokenVersion := v)]
    {
      if userId !in rows { return None; }
      var u := rows[userId];
      rows := rows[userId := u.(tokenVersion := u.tokenVersion + 1)];
      return Some(u.tokenVersion + 1);
    }
  }

  function Key(userId: UserId): string {
    "auth:user" + ":" + userId + ":tokenVersion"
  }

  lemma KeyIsInjective(a: UserId, b: UserId)
    ensures Key(a) == Key(b) ==> a == b
  {
    var front, back := |"auth:user" + ":"|, |":tokenVersion"|;
    assert Key(a)[front..|Key(a)| - back] == a;
    assert Key(b)[front..|Key(b)| - back] == b;
  }

  datatype Verdict = Accepted | InvalidPayload | UserNotFound | TokenStale

  class AuthTokenVersionService {
    const users: UserTable
    /** The keys that exist in Redis; a value is a cached version or garbled text. */
    var redis: map<string, Entry>

    ghost predicate Valid()
      reads this
    {
      forall k :: k in redis ==> !redis[k].Absent?
    }

    constructor (users: UserTable)
      ensures this.users == users && redis == map[] && Valid()
    {
      this.users := users;
      redis := map[];
    }

    function EntryOf(userId: UserId): Entry
      reads this
    {
      if Key(userId) in redis then redis[Key(userId)] else Absent
    }

    /** The stored version of a user together with what is cached for it. */
    function StoreOf(userId: UserId): Store
      reads this, users
      requires userId in users.rows
    {
      Store(users.rows[userId].tokenVersion, EntryOf(userId))
    }

    method ClearCachedVersion(userId: UserId, call: Call)
      requires Valid()
      modifies this
      ensures Valid()
      ensures EntryOf(userId) == Deleted(old(EntryOf(userId)), call)
      ensures forall other :: other != userId ==> EntryOf(other) == old(EntryOf(other))
    {
      if call.effect {
        redis := redis - {Key(userId)};
      }
      forall other | other != userId ensures EntryOf(other) == old(EntryOf(other)) { KeyIsInjective(other, userId); }
    }

    method SetVersion(userId: UserId, version: int, call: Call)
      requires Valid()
      modifies this
      ensures Valid()
      ensures EntryOf(userId) == Set(old(EntryOf(userId)), version, call)
      ensures forall other :: other != userId ==> EntryOf(other) == old(EntryOf(other))
    {
      if call.effect {
        redis := redis[Key(userId) := Cached(version)];
      }
      forall other | other != userId ensures EntryOf(other) == old(EntryOf(other)) { KeyIsInjective(other, userId); }
    }

    /** None stands for the not-found exception of the increment. */
    method BumpVersion(userId: UserId, del: Call, set_: Call, fallback: Call) returns (r: Option<int>)
      requires Valid()
      modifies this, users
      ensures Valid()
      ensures userId !in old(users.rows) ==>
        r.None? && users.rows == old(users.rows) && EntryOf(userId) == Deleted(old(EntryOf(userId)), del)
      ensures userId in old(users.rows) ==>
        && r == Some(old(users.rows)[userId].tokenVersion + 1)
        && users.rows == old(users.rows)[userId := old(users.rows)[userId].(tokenVersion := r.value)]
        && StoreOf(userId) == Bump(old(StoreOf(userId)), del, set_, fallback)
      ensures forall other :: other != userId ==> EntryOf(other) == old(EntryOf(other))
    {
      ClearCachedVersion(userId, del);
      r := users.IncrementTokenVersion(userId);
      if r.Some? {
        SetVersion(userId, r.value, set_);
        if set_.error {
          ClearCachedVersion(userId, fallback);
        }
      }
    }

    method RestoreVersionFromDatabase(userId: UserId, restore: Call) returns (r: Option<int>)
      requires Valid()
      modifies this
      ensures Valid()
      ensures r == if userId in users.rows then Some(users.rows[userId].tokenVersion) else None
      ensures EntryOf(userId) == if r.Some? then Set(old(EntryOf(userId)), r.value, restore) else old(EntryOf(userId))
      ensures forall other :: other != userId ==> EntryOf(other) == old(EntryOf(other))
    {
      var user := users.FindById(userId);
      if user.None? { return None; }
      SetVersion(userId, user.value.tokenVersion, restore);
      return Some(user.value.tokenVersion);
    }

    method GetCurrentVersion(userId: UserId, getFails: bool, restore: Call) returns (r: Option<int>)
      requires Valid()
      modifies this
      ensures Valid()
      ensures userId in users.rows ==>
        var (after, version) := Lookup(old(StoreOf(userId)), getFails, restore);
        StoreOf(userId) == after && r == Some(version)
      ensures userId !in users.rows ==>
        && r == (if !getFails && old(EntryOf(userId)).Cached? then Some(old(EntryOf(userId)).version) else None)
        && EntryOf(userId) == old(EntryOf(userId))
      ensures forall other :: other != userId ==> EntryOf(other) == old(EntryOf(other))
    {
      if !getFails {
        if Key(userId) in redis {
          var cached := redis[Key(userId)];
          if cached.Cached? {
            return Some(cached.version);
          }
        }
      }
      r := RestoreVersionFromDatabase(userId, restore);
    }

    /** The token's version claim is None when it is not an integer. */
    method AssertCurrent(userId: UserId, tokenVersion: Option<int>, getFails: bool, restore: Call) returns (v: Verdict)
      requires Valid()
      modifies this
      ensures Valid()
      ensures v.InvalidPayload? <==> tokenVersion.None?
      ensures v.InvalidPayload? ==> redis == old(redis)
      ensures userId in users.rows && tokenVersion.Some? ==>
        var (after, version) := Lookup(old(StoreOf(userId)), getFails, restore);
        StoreOf(userId) == after && v == if tokenVersion.value == version then Accepted else TokenStale
      ensures userId !in users.rows && tokenVersion.Some? ==>
        var entry := old(EntryOf(userId));
        && EntryOf(userId) == entry
        && v == (if getFails || !entry.Cached? then UserNotFound
                 else if tokenVersion.value == entry.version then Accepted else TokenStale)
      ensures forall other :: other != userId ==> EntryOf(other) == old(EntryOf(other))
    {
      if tokenVersion.None? { return InvalidPayload; }
      var current := GetCurrentVersion(userId, getFails, restore);
      if current.None? { return UserNotFound; }
      if current.value != tokenVersion.value { return TokenStale; }
      return Accepted;
    }

    /** The access token strategy: claims that are present, then the version check. */
    method Validate(
        userId: UserId, roleId: RoleId, roleType: string, language: string, tokenVersion: Option<int>,
        getFails: bool, restore: Call) returns (v: Verdict)
      requires Valid()
      modifies this
      ensures Valid()
      ensures v.InvalidPayload? <==>
        userId == "" || roleId == "" || roleType == "" || language == "" || tokenVersion.None?
      ensures v.InvalidPayload? ==> redis == old(redis)
      ensures userId in users.rows && !v.InvalidPayload? ==>
        var (after, version) := Lookup(old(StoreOf(userId)), getFails, restore);
        && StoreOf(userId) == after && (v.TokenStale? <==> !v.Accepted?)
        && (v.Accepted? <==> AC.Accepts(Claims(userId, roleId, tokenVersion.value), version))
      ensures userId !in users.rows && !v.InvalidPayload? ==>
        var entry := old(EntryOf(userId));
        && EntryOf(userId) == entry
        && v == (if getFails || !entry.Cached? then UserNotFound
                 else if tokenVersion.value == entry.version then Accepted else TokenStale)
    {
      if userId == "" || roleId == "" || roleType == "" || language == "" {
        return InvalidPayload;
      }
      v := AssertCurrent(userId, tokenVersion, getFails, restore);
    }
  }

  class UserHandlers {
    const users: UserTable
    const versions: AuthTokenVersionService

    constructor (versions: AuthTokenVersionService)
      ensures this.versions == versions && this.users == versions.users
    {
      this.versions := versions;
      this.users := versions.users;
    }

    /** Given the previous values of a user, whether the update changes what its access tokens say. */
    method ShouldInvalidateAccessTokens(previousRoleId: RoleId, previousBlocked: bool, payload: AC.Payload)
      returns (r: bool)
      ensures forall u: User :: u.roleId == previousRoleId && u.blocked == previousBlocked ==>
        (r <==> AC.ChangesClaims(u, payload))
    {
      var roleChanged := payload.roleId.Some? && payload.roleId.value != previousRoleId;
      var blockedChanged := payload.blocked.Some? && payload.blocked.value != previousBlocked;
      return roleChanged || blockedChanged;
    }

    /** The update handler: the row write, then a bump exactly when the role or the blocked flag changes. */
    method UpdateUser(userId: UserId, payload: AC.Payload, del: Call, set_: Call, fallback: Call)
      returns (r: Option<User>)
      requires versions.users == users && versions.Valid()
      modifies users, versions
      ensures versions.Valid()
      ensures r.None? <==> userId !in old(users.rows)
      ensures r.None? ==> users.rows == old(users.rows)
      ensures r.Some? ==>
        var u := old(users.rows)[userId];
        var w := AC.Updated(u, payload);
        var changed := AC.ChangesClaims(u, payload);
        && r.value == (if changed then w.(tokenVersion := u.tokenVersion + 1) else w)
        && users.rows == old(users.rows)[userId := r.value]
        && versions.StoreOf(userId) ==
             (if changed then Bump(old(versions.StoreOf(userId)), del, set_, fallback)
              else old(versions.StoreOf(userId)))
    {
      var previous := users.FindById(userId);
      if previous.None? { return None; }
      var found := users.Update(userId, payload);
      var invalidate := ShouldInvalidateAccessTokens(previous.value.roleId, previous.value.blocked, payload);
      if invalidate {
        var version := versions.BumpVersion(userId, del, set_, fallback);
      }
      r := users.FindById(userId);
    }

    method UnlockUser(userId: UserId) returns (found: bool)
      modifies users
      ensures found == (userId in old(users.rows))
      ensures users.rows == if !found then old(users.rows)
        else old(users.rows)[userId := old(users.rows)[userId].(blocked := false, lock := CLEAN)]
    {
      var user := users.FindById(userId);
      if user.None? { return false; }
      found := users.Update(userId, AC.NOTHING.(blocked := Some(false), lock := Some(CLEAN)));
    }
  }
}
