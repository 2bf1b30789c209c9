/** Refresh-token sessions, one handler run at a time: rotation chains, reuse detection, conservation. */
module Sessions {
  import opened Options
  import opened Accounts

  /** A signed refresh token: its random id and its subject. */
  datatype Token = Token(id: nat, userId: UserId)

  /** A row of the refresh table; its primary key is its position. */
  datatype Row = Row(userId: UserId, token: Token, expiresAt: Millis, revoked: bool)

  datatype Flags = Flags(verified: bool, blocked: bool)

  datatype ResetToken = ResetToken(userId: UserId, expiresAt: Millis, used: bool)

  const MIN_PASSWORD_LENGTH := 12

  predicate IsValid(record: ResetToken, now: Millis) {
    !record.used && now < record.expiresAt
  }

  // ---------- the repository's statements ----------

  function FindByToken(rows: seq<Row>, token: Token): (r: Option<nat>)
    ensures r.Some? ==> r.value < |rows| && rows[r.value].token == token
    ensures r.None? ==> forall i :: 0 <= i < |rows| ==> rows[i].token != token
  {
    if rows == [] then None
    else if FindByToken(rows[..|rows| - 1], token).Some? then FindByToken(rows[..|rows| - 1], token)
    else if rows[|rows| - 1].token == token then Some(|rows| - 1)
    else None
  }

  function RevokeById(rows: seq<Row>, i: nat): (r: seq<Row>)
    requires i < |rows|
  {
    rows[i := rows[i].(revoked := true)]
  }

  function RevokeAllForUser(rows: seq<Row>, userId: UserId): (r: seq<Row>)
    ensures |r| == |rows|
    ensures forall i :: 0 <= i < |rows| ==> r[i] == rows[i].(revoked := rows[i].revoked || rows[i].userId == userId)
  {
    seq(|rows|, i requires 0 <= i < |rows| => rows[i].(revoked := rows[i].revoked || rows[i].userId == userId))
  }

  /** The user whose row the token belongs to has it revoked if it was not. */
  function RevokeByToken(rows: seq<Row>, token: Token): (r: (seq<Row>, bool))
    ensures |r.0| == |rows|
    ensures forall i :: 0 <= i < |rows| ==> r.0[i] == rows[i].(revoked := rows[i].revoked || rows[i].token == token)
    ensures r.1 <==> exists i :: 0 <= i < |rows| && rows[i].token == token && !rows[i].revoked
  {
    (seq(|rows|, i requires 0 <= i < |rows| => rows[i].(revoked := rows[i].revoked || rows[i].token == token)),
     exists i :: 0 <= i < |rows| && rows[i].token == token && !rows[i].revoked)
  }

  // ---------- the handlers ----------

  /** parents[i] is the row that row i replaced by rotation; it is history, the program does not store it. */
  datatype State = State(
    rows: seq<Row>,
    parents: seq<Option<nat>>,
    users: map<UserId, Flags>,
    resets: map<string, ResetToken>)

  const EMPTY := State([], [], map[], map[])

  datatype Event =
    | Login(userId: UserId, id: nat, expiresAt: Millis)
    | Refresh(token: Token, jwtValid: bool, now: Millis, id: nat, expiresAt: Millis)
    | Logout(token: Token, jwtValid: bool)
    | ResetPassword(resetToken: string, newLength: nat, now: Millis)
    | ChangePassword(userId: UserId)
    | SetUser(userId: UserId, flags: Option<Flags>)
    | IssueReset(resetToken: string, userId: UserId, expiresAt: Millis)

  datatype Outcome =
    | Issued(token: Token)
    | InvalidJwtPayload | TokenNotFound | TokenRevoked | TokenExpired | UserNotFound | NotVerified | Blocked
    | LoggedOut(success: bool)
    | PasswordSet
    | WeakPassword | ResetTokenInvalid
    | PasswordNotConfigured | CurrentPasswordInvalid
    | Silent

  predicate Fresh(rows: seq<Row>, id: nat) {
    forall i :: 0 <= i < |rows| ==> rows[i].token.id != id
  }

  /** Token ids are random and never repeat, login issues only to users that may log in, reset tokens are new. */
  predicate Enabled(s: State, e: Event) {
    match e
    case Login(u, id, _) => Fresh(s.rows, id) && u in s.users && s.users[u].verified && !s.users[u].blocked
    case Refresh(_, _, _, id, _) => Fresh(s.rows, id)
    case IssueReset(t, _, _) => t !in s.resets
    case _ => true
  }

  /** The verdict on a refresh, before anything is written. */
  function Judge(s: State, token: Token, jwtValid: bool, now: Millis): Outcome {
    if !jwtValid then InvalidJwtPayload
    else
      var found := FindByToken(s.rows, token);
      if found.None? then TokenNotFound
      else if s.rows[found.value].revoked then TokenRevoked
      else if now > s.rows[found.value].expiresAt then TokenExpired
      else if token.userId !in s.users then UserNotFound
      else if !s.users[token.userId].verified then NotVerified
      else if s.users[token.userId].blocked then Blocked
      else Issued(token)
  }

  function Apply(s: State, e: Event): (State, Outcome)
    requires Enabled(s, e)
  {
    match e
    case Login(u, id, expiresAt) =>
      (s.(rows := s.rows + [Row(u, Token(id, u), expiresAt, false)], parents := s.parents + [None]),
       Issued(Token(id, u)))
    case Refresh(token, jwtValid, now, id, expiresAt) =>
      var verdict := Judge(s, token, jwtValid, now);
      if verdict.TokenRevoked? then (s.(rows := RevokeAllForUser(s.rows, token.userId)), TokenRevoked)
      else if verdict.Issued? then
        var i := FindByToken(s.rows, token).value;
        var next := Token(id, token.userId);
        (s.(rows := RevokeById(s.rows, i) + [Row(token.userId, next, expiresAt, false)],
          parents := s.parents + [Some(i)]),
         Issued(next))
      else (s, verdict)
    case Logout(token, jwtValid) =>
      if !jwtValid then (s, LoggedOut(false))
      else
        var (rows, success) := RevokeByToken(s.rows, token);
        (s.(rows := rows), LoggedOut(success))
    case ResetPassword(t, newLength, now) =>
      if newLength < MIN_PASSWORD_LENGTH then (s, WeakPassword)
      else if t !in s.resets || !IsValid(s.resets[t], now) then (s, ResetTokenInvalid)
      else
        var u := s.resets[t].userId;
        (s.(rows := RevokeAllForUser(s.rows, u), resets := s.resets[t := s.resets[t].(used := true)]), PasswordSet)
    case ChangePassword(u) => (s.(rows := RevokeAllForUser(s.rows, u)), PasswordSet)
    case SetUser(u, flags) =>
      (s.(users := if flags.Some? then s.users[u := flags.value] else s.users - {u}), Silent)
    case IssueReset(t, u, expiresAt) => (s.(resets := s.resets[t := ResetToken(u, expiresAt, false)]), Silent)
  }

  /** Runs from the empty table, as the events they consist of. */
  predicate Runs(es: seq<Event>)
    decreases |es|, 0
  {
    es == [] || (Runs(es[..|es| - 1]) && Enabled(After(es[..|es| - 1]), es[|es| - 1]))
  }

  function After(es: seq<Event>): State
    requires Runs(es)
    decreases |es|, 1
  {
    if es == [] then EMPTY else Apply(After(es[..|es| - 1]), es[|es| - 1]).0
  }

  /** The outcome of event k of a run. */
  function OutcomeAt(es: seq<Event>, k: nat): Outcome
    requires Runs(es) && k < |es|
  {
    RunPrefix(es, k + 1);
    assert es[..k + 1][..k] == es[..k];
    Apply(After(es[..k]), es[k]).1
  }

  lemma {:induction false} RunPrefix(es: seq<Event>, k: nat)
    requires Runs(es) && k <= |es|
    ensures Runs(es[..k])
  {
    if k < |es| {
      RunPrefix(es[..|es| - 1], k);
      assert es[..|es| - 1][..k] == es[..k];
    } else {
      assert es[..k] == es;
    }
  }

  // ---------- rotation chains ----------

  predicate WellFormed(s: State) {
    && |s.parents| == |s.rows|
    && (forall i :: 0 <= i < |s.rows| ==> s.rows[i].userId == s.rows[i].token.userId)
    && (forall i, j :: 0 <= i < j < |s.rows| ==> s.rows[i].token.id != s.rows[j].token.id)
    && (forall i :: 0 <= i < |s.rows| && s.parents[i].Some? ==>
          s.parents[i].value < i && s.rows[s.parents[i].value].userId == s.rows[i].userId)
  }

  /** The login a row descends from. */
  function Root(parents: seq<Option<nat>>, i: nat): (r: nat)
    requires i < |parents|
    requires forall k :: 0 <= k < |parents| && parents[k].Some? ==> parents[k].value < k
    ensures r <= i && parents[r].None?
  {
    if parents[i].None? then i else Root(parents, parents[i].value)
  }

  lemma {:induction false} RootIsStable(parents: seq<Option<nat>>, more: Option<nat>, i: nat)
    requires i < |parents| && (more.Some? ==> more.value < |parents|)
    requires forall k :: 0 <= k < |parents| && parents[k].Some? ==> parents[k].value < k
    ensures Root(parents + [more], i) == Root(parents, i)
  {
    if parents[i].Some? {
      RootIsStable(parents, more, parents[i].value);
    }
  }

  /** Rows of one chain are revoked except perhaps the newest. */
  ghost predicate OnlyNewestLives(s: State)
    requires WellFormed(s)
  {
    forall i, j :: 0 <= i < j < |s.rows| && Root(s.parents, i) == Root(s.parents, j) ==> s.rows[i].revoked
  }

  ghost predicate AtMostOneSuccessor(s: State)
    requires WellFormed(s)
  {
    && (forall i :: 0 <= i < |s.rows| && s.parents[i].Some? ==> s.rows[s.parents[i].value].revoked)
    && (forall i, j :: 0 <= i < j < |s.rows| && s.parents[i].Some? ==> s.parents[i] != s.parents[j])
  }

  ghost predicate Lines(s: State) {
    WellFormed(s) && OnlyNewestLives(s) && AtMostOneSuccessor(s)
  }

  /** A new row, in place of its parent if it has one. */
  function Appended(s: State, row: Row, parent: Option<nat>): State
    requires parent.Some? ==> parent.value < |s.rows|
  {
    s.(rows := (if parent.Some? then RevokeById(s.rows, parent.value) else s.rows) + [row],
       parents := s.parents + [parent])
  }

  predicate MayAppend(s: State, row: Row, parent: Option<nat>) {
    && row.userId == row.token.userId && Fresh(s.rows, row.token.id)
    && (parent.Some? ==> parent.value < |s.rows| && s.rows[parent.value].userId == row.userId)
    && (parent.Some? ==> !s.rows[parent.value].revoked)
  }

  lemma AppendKeepsWellFormed(s: State, row: Row, parent: Option<nat>)
    requires WellFormed(s) && MayAppend(s, row, parent)
    ensures WellFormed(Appended(s, row, parent))
  {
  }

  lemma AppendKeepsOnlyNewest(s: State, row: Row, parent: Option<nat>)
    requires WellFormed(s) && OnlyNewestLives(s) && MayAppend(s, row, parent)
    requires WellFormed(Appended(s, row, parent))
    ensures OnlyNewestLives(Appended(s, row, parent))
  {
    var n := |s.rows|;
    var t := Appended(s, row, parent);
    forall i, j | 0 <= i < j < |t.rows| && Root(t.parents, i) == Root(t.parents, j)
      ensures t.rows[i].revoked
    {
      RootIsStable(s.parents, parent, i);
      if j < n {
        RootIsStable(s.parents, parent, j);
      } else {
        assert parent.Some?;
        RootIsStable(s.parents, parent, parent.value);
        assert i <= parent.value;
      }
    }
  }

  lemma AppendKeepsLines(s: State, row: Row, parent: Option<nat>)
    requires Lines(s) && MayAppend(s, row, parent)
    ensures Lines(Appended(s, row, parent))
  {
    AppendKeepsWellFormed(s, row, parent);
    AppendKeepsOnlyNewest(s, row, parent);
  }

  lemma RevokingKeepsLines(s: State, rows: seq<Row>)
    requires Lines(s) && |rows| == |s.rows|
    requires forall i :: 0 <= i < |rows| ==> rows[i].(revoked := false) == s.rows[i].(revoked := false)
    requires forall i :: 0 <= i < |rows| ==> s.rows[i].revoked ==> rows[i].revoked
    ensures Lines(s.(rows := rows))
  {
    forall i | 0 <= i < |rows|
      ensures rows[i].userId == s.rows[i].userId && rows[i].token == s.rows[i].token
    {
      assert rows[i].(revoked := false).userId == rows[i].userId && rows[i].(revoked := false).token == rows[i].token;
    }
  }

  lemma RefreshKeepsLines(s: State, token: Token, jwtValid: bool, now: Millis, id: nat, expiresAt: Millis)
    requires Lines(s) && Fresh(s.rows, id)
    ensures Lines(Apply(s, Refresh(token, jwtValid, now, id, expiresAt)).0)
  {
    var verdict := Judge(s, token, jwtValid, now);
    if verdict.TokenRevoked? {
      RevokingKeepsLines(s, RevokeAllForUser(s.rows, token.userId));
    } else if verdict.Issued? {
      var i := FindByToken(s.rows, token).value;
      AppendKeepsLines(s, Row(token.userId, Token(id, token.userId), expiresAt, false), Some(i));
    }
  }

  lemma ResetKeepsLines(s: State, resetToken: string, newLength: nat, now: Millis)
    requires Lines(s)
    ensures Lines(Apply(s, ResetPassword(resetToken, newLength, now)).0)
  {
    if resetToken in s.resets {
      RevokingKeepsLines(s, RevokeAllForUser(s.rows, s.resets[resetToken].userId));
    }
  }

  lemma EventKeepsLines(s: State, e: Event)
    requires Lines(s) && Enabled(s, e)
    ensures Lines(Apply(s, e).0)
  {
    match e
    case Login(u, id, expiresAt) => AppendKeepsLines(s, Row(u, Token(id, u), expiresAt, false), None);
    case Refresh(token, jwtValid, now, id, expiresAt) => RefreshKeepsLines(s, token, jwtValid, now, id, expiresAt);
    case Logout(token, jwtValid) => RevokingKeepsLines(s, RevokeByToken(s.rows, token).0);
    case ResetPassword(t, newLength, now) => ResetKeepsLines(s, t, newLength, now);
    case ChangePassword(u) => RevokingKeepsLines(s, RevokeAllForUser(s.rows, u));
    case SetUser(_, _) =>
    case IssueReset(_, _, _) =>
  }

  /**
   * In every run of atomic handlers each row has at most one successor, and of each chain rooted at a
   * login at most one row is unrevoked, the newest.
   */
  lemma {:induction false} ChainsAreLines(es: seq<Event>)
    requires Runs(es)
    ensures Lines(After(es))
  {
    if es != [] {
      ChainsAreLines(es[..|es| - 1]);
      EventKeepsLines(After(es[..|es| - 1]), es[|es| - 1]);
    }
  }

  lemma TokenFindsItsRow(s: State, i: nat)
    requires WellFormed(s) && i < |s.rows|
    ensures FindByToken(s.rows, s.rows[i].token) == Some(i)
  {
    var k := FindByToken(s.rows, s.rows[i].token);
    assert k.Some? && s.rows[k.value].token.id == s.rows[i].token.id;
  }

  /**
   * Presenting any row of a chain but its newest, with a JWT that still verifies, yields no tokens and
   * leaves every row of that user revoked and every other row as it was.
   */
  lemma ReuseRevokesEverything(es: seq<Event>, i: nat, j: nat, now: Millis, id: nat, expiresAt: Millis)
    requires Runs(es)
    requires i < j < |After(es).rows| && WellFormed(After(es))
    requires Root(After(es).parents, i) == Root(After(es).parents, j)
    requires Fresh(After(es).rows, id)
    ensures var s := After(es); var (t, r) := Apply(s, Refresh(s.rows[i].token, true, now, id, expiresAt));
      && r == TokenRevoked
      && |t.rows| == |s.rows|
      && forall k :: 0 <= k < |t.rows| ==>
           if s.rows[k].userId == s.rows[i].userId then t.rows[k].revoked else t.rows[k] == s.rows[k]
  {
    ChainsAreLines(es);
    TokenFindsItsRow(After(es), i);
  }

  /** Row i of s may be refreshed at `now`: unrevoked, unexpired, and its user may log in. */
  predicate IsLive(s: State, i: nat, now: Millis)
    requires i < |s.rows|
  {
    var u := s.rows[i].userId;
    !s.rows[i].revoked && now <= s.rows[i].expiresAt && u in s.users && s.users[u] == Flags(true, false)
  }

  /** A refresh replaces row i by its successor and touches nothing else. */
  predicate Rotates(s: State, t: State, i: nat, next: Row)
    requires i < |s.rows|
  {
    && |t.rows| == |s.rows| + 1 && t.rows[|s.rows|] == next
    && t.rows[i] == s.rows[i].(revoked := true)
    && (forall k :: 0 <= k < |s.rows| && k != i ==> t.rows[k] == s.rows[k])
    && t.parents == s.parents + [Some(i)] && t.users == s.users && t.resets == s.resets
  }

  lemma LiveRowRotates(s: State, i: nat, now: Millis, id: nat, expiresAt: Millis)
    requires WellFormed(s) && i < |s.rows| && Fresh(s.rows, id) && IsLive(s, i, now)
    ensures var u := s.rows[i].userId; var next := Token(id, u);
      var (t, r) := Apply(s, Refresh(s.rows[i].token, true, now, id, expiresAt));
      r == Issued(next) && Rotates(s, t, i, Row(u, next, expiresAt, false))
  {
    TokenFindsItsRow(s, i);
  }

  /** Conversely an unrevoked, unexpired row of a user in good standing is always accepted, and rotated. */
  lemma LiveRowIsAccepted(es: seq<Event>, i: nat, now: Millis, id: nat, expiresAt: Millis)
    requires Runs(es) && i < |After(es).rows| && Fresh(After(es).rows, id) && IsLive(After(es), i, now)
    ensures var s := After(es); var u := s.rows[i].userId; var next := Token(id, u);
      var (t, r) := Apply(s, Refresh(s.rows[i].token, true, now, id, expiresAt));
      r == Issued(next) && Rotates(s, t, i, Row(u, next, expiresAt, false))
  {
    ChainsAreLines(es);
    LiveRowRotates(After(es), i, now, id, expiresAt);
  }

  // ---------- refusals ----------

  /** Some row holds the token. */
  predicate IsOnRecord(rows: seq<Row>, token: Token) {
    exists i :: 0 <= i < |rows| && rows[i].token == token
  }

  /** Some unrevoked row holds the token. */
  predicate IsUnrevoked(rows: seq<Row>, token: Token) {
    exists i :: 0 <= i < |rows| && rows[i].token == token && !rows[i].revoked
  }

  /** Some unrevoked row holds the token and has not expired. */
  predicate IsUnexpired(rows: seq<Row>, token: Token, now: Millis) {
    exists i :: 0 <= i < |rows| && rows[i].token == token && !rows[i].revoked && now <= rows[i].expiresAt
  }

  /** Exactly the rows of the user have become revoked. */
  predicate RevokesUser(before: seq<Row>, after: seq<Row>, u: UserId) {
    && |after| == |before|
    && forall k :: 0 <= k < |before| ==>
         after[k] == if before[k].userId == u then before[k].(revoked := true) else before[k]
  }

  /** A row of the token has been rotated into the next one. */
  predicate ReplacesRowOf(s: State, t: State, token: Token, next: Row) {
    exists i: nat :: i < |s.rows| && s.rows[i].token == token && Rotates(s, t, i, next)
  }

  lemma TokenHasOneRow(rows: seq<Row>, token: Token, i: nat, j: nat)
    requires forall k, l :: 0 <= k < l < |rows| ==> rows[k].token.id != rows[l].token.id
    requires i < |rows| && j < |rows| && rows[i].token == token == rows[j].token
    ensures i == j
  {
  }

  lemma RecordOf(rows: seq<Row>, token: Token, now: Millis)
    requires forall k, l :: 0 <= k < l < |rows| ==> rows[k].token.id != rows[l].token.id
    ensures var found := FindByToken(rows, token);
      && (found.Some? <==> IsOnRecord(rows, token))
      && (found.Some? ==> (IsUnrevoked(rows, token) <==> !rows[found.value].revoked))
      && (found.Some? ==>
            (IsUnexpired(rows, token, now) <==> !rows[found.value].revoked && now <= rows[found.value].expiresAt))
  {
    var found := FindByToken(rows, token);
    if found.Some? {
      forall i | 0 <= i < |rows| && rows[i].token == token
        ensures i == found.value
      {
        TokenHasOneRow(rows, token, i, found.value);
      }
    }
  }

  /** The tables after a refresh, by its outcome: a detected reuse revokes, an issue rotates, all else leaves them. */
  lemma RefreshLeaves(s: State, token: Token, jwtValid: bool, now: Millis, id: nat, expiresAt: Millis)
    requires WellFormed(s) && Fresh(s.rows, id)
    ensures var (t, r) := Apply(s, Refresh(token, jwtValid, now, id, expiresAt));
      && (!r.Issued? && !r.TokenRevoked? ==> t == s)
      && (r.TokenRevoked? ==> t == s.(rows := t.rows) && RevokesUser(s.rows, t.rows, token.userId))
      && (r.Issued? ==> r.token == Token(id, token.userId))
      && (r.Issued? ==> ReplacesRowOf(s, t, token, Row(token.userId, Token(id, token.userId), expiresAt, false)))
  {
    var (t, r) := Apply(s, Refresh(token, jwtValid, now, id, expiresAt));
    if r.Issued? {
      var i := FindByToken(s.rows, token).value;
      assert Rotates(s, t, i, Row(token.userId, Token(id, token.userId), expiresAt, false));
    }
  }

  /**
   * In every run, on rows, users and clock alone: a refresh issues exactly when its JWT verifies, an
   * unrevoked and unexpired row holds its token, and the token's user exists, is verified and not blocked;
   * and each refusal is given exactly when its own guard is the first to fail.
   */
  lemma RefreshIssuesIff(es: seq<Event>, token: Token, jwtValid: bool, now: Millis, id: nat, expiresAt: Millis)
    requires Runs(es) && Fresh(After(es).rows, id)
    ensures var s := After(es); var u := token.userId;
      var r := Apply(s, Refresh(token, jwtValid, now, id, expiresAt)).1;
      var unexpired := jwtValid && IsUnexpired(s.rows, token, now);
      && (r.InvalidJwtPayload? <==> !jwtValid)
      && (r.TokenNotFound? <==> jwtValid && !IsOnRecord(s.rows, token))
      && (r.TokenRevoked? <==> jwtValid && IsOnRecord(s.rows, token) && !IsUnrevoked(s.rows, token))
      && (r.TokenExpired? <==> jwtValid && IsUnrevoked(s.rows, token) && !IsUnexpired(s.rows, token, now))
      && (r.UserNotFound? <==> unexpired && u !in s.users)
      && (r.NotVerified? <==> unexpired && u in s.users && !s.users[u].verified)
      && (r.Blocked? <==> unexpired && u in s.users && s.users[u].verified && s.users[u].blocked)
      && (r.Issued? <==> unexpired && u in s.users && s.users[u].verified && !s.users[u].blocked)
  {
    ChainsAreLines(es);
    RecordOf(After(es).rows, token, now);
  }

  /** What becomes of the tables in each case. */
  lemma RefreshTouchesOnly(es: seq<Event>, token: Token, jwtValid: bool, now: Millis, id: nat, expiresAt: Millis)
    requires Runs(es) && Fresh(After(es).rows, id)
    ensures var s := After(es); var (t, r) := Apply(s, Refresh(token, jwtValid, now, id, expiresAt));
      && (!r.Issued? && !r.TokenRevoked? ==> t == s)
      && (r.TokenRevoked? ==> t == s.(rows := t.rows) && RevokesUser(s.rows, t.rows, token.userId))
      && (r.Issued? ==> r.token == Token(id, token.userId))
      && (r.Issued? ==> ReplacesRowOf(s, t, token, Row(token.userId, Token(id, token.userId), expiresAt, false)))
  {
    ChainsAreLines(es);
    RefreshLeaves(After(es), token, jwtValid, now, id, expiresAt);
  }

  /**
   * A logout succeeds exactly when its JWT verifies and an unrevoked row holds the token; a verified one
   * leaves no such row and every other row as it was, an unverified one leaves the tables as they were.
   */
  lemma LogoutRevokesIff(s: State, token: Token, jwtValid: bool)
    ensures var (t, r) := Apply(s, Logout(token, jwtValid));
      && r == LoggedOut(jwtValid && IsUnrevoked(s.rows, token))
      && (!jwtValid ==> t == s)
      && (jwtValid ==> t == s.(rows := t.rows) && |t.rows| == |s.rows| && !IsUnrevoked(t.rows, token))
      && (jwtValid ==> forall k :: 0 <= k < |s.rows| ==>
            if s.rows[k].token == token then t.rows[k] == s.rows[k].(revoked := true) else t.rows[k] == s.rows[k])
  {
  }

  /** Rows stay where they are, keep their token and stay revoked. */
  predicate Keeps(before: seq<Row>, after: seq<Row>) {
    && |before| <= |after|
    && forall i :: 0 <= i < |before| ==>
         after[i].token == before[i].token && (before[i].revoked ==> after[i].revoked)
  }

  lemma EventKeepsRows(s: State, e: Event)
    requires Enabled(s, e)
    ensures Keeps(s.rows, Apply(s, e).0.rows)
  {
  }

  /** The tables before event k of a run. */
  function StateAt(es: seq<Event>, k: nat): State
    requires Runs(es) && k <= |es|
  {
    RunPrefix(es, k);
    After(es[..k])
  }

  lemma StateNext(es: seq<Event>, k: nat)
    requires Runs(es) && k < |es|
    ensures Enabled(StateAt(es, k), es[k])
    ensures StateAt(es, k + 1) == Apply(StateAt(es, k), es[k]).0 && OutcomeAt(es, k) == Apply(StateAt(es, k), es[k]).1
  {
    RunPrefix(es, k + 1);
    assert es[..k + 1][..k] == es[..k];
  }

  lemma StateIsWellFormed(es: seq<Event>, k: nat)
    requires Runs(es) && k <= |es|
    ensures WellFormed(StateAt(es, k))
  {
    RunPrefix(es, k);
    ChainsAreLines(es[..k]);
  }

  lemma {:induction false} RunKeepsRows(es: seq<Event>, j: nat, k: nat)
    requires Runs(es) && j <= k <= |es|
    ensures Keeps(StateAt(es, j).rows, StateAt(es, k).rows)
    decreases k
  {
    if j == k {
      KeepsItself(StateAt(es, k).rows);
    } else {
      RunKeepsRows(es, j, k - 1);
      NextKeepsRows(es, StateAt(es, j).rows, k - 1);
    }
  }

  lemma NextKeepsRows(es: seq<Event>, rows: seq<Row>, k: nat)
    requires Runs(es) && k < |es| && Keeps(rows, StateAt(es, k).rows)
    ensures Keeps(rows, StateAt(es, k + 1).rows)
  {
    var s, t := StateAt(es, k), StateAt(es, k + 1);
    StateNext(es, k);
    EventKeepsRows(s, es[k]);
    KeepsJoins(rows, s.rows, t.rows);
  }

  lemma KeepsItself(rows: seq<Row>)
    ensures Keeps(rows, rows)
  {
  }

  lemma KeepsJoins(a: seq<Row>, b: seq<Row>, c: seq<Row>)
    requires Keeps(a, b) && Keeps(b, c)
    ensures Keeps(a, c)
  {
  }

  lemma RevokedIsNotIssued(s: State, i: nat, e: Event)
    requires WellFormed(s) && i < |s.rows| && s.rows[i].revoked
    requires Enabled(s, e) && e.Refresh? && e.token == s.rows[i].token
    ensures !Apply(s, e).1.Issued?
  {
    TokenFindsItsRow(s, i);
  }

  lemma RowIsRevoked(before: seq<Row>, after: seq<Row>, later: seq<Row>, token: Token) returns (i: nat)
    requires IsOnRecord(before, token) && Keeps(before, after) && Keeps(after, later) && !IsUnrevoked(after, token)
    ensures i < |later| && later[i].token == token && later[i].revoked
  {
    i :| 0 <= i < |before| && before[i].token == token;
    assert after[i].token == token;
  }

  /** No run issues from a token on record after it was logged out with a JWT that verified. */
  lemma LoggedOutIsFinal(es: seq<Event>, j: nat, k: nat, token: Token)
    requires Runs(es) && j < k < |es| && es[j] == Logout(token, true)
    requires IsOnRecord(StateAt(es, j).rows, token)
    requires es[k].Refresh? && es[k].token == token
    ensures !OutcomeAt(es, k).Issued?
  {
    var before, after, t := StateAt(es, j), StateAt(es, j + 1), StateAt(es, k);
    StateNext(es, j);
    LogoutRevokesIff(before, token, true);
    EventKeepsRows(before, es[j]);
    RunKeepsRows(es, j + 1, k);
    var i := RowIsRevoked(before.rows, after.rows, t.rows, token);
    StateIsWellFormed(es, k);
    StateNext(es, k);
    RevokedIsNotIssued(t, i, es[k]);
  }

  /**
   * A reset is accepted exactly when the new password has at least 12 characters and its token is on
   * record, unused and unexpired; each refusal has its own guard and leaves the tables as they were.
   */
  lemma ResetSucceedsIff(s: State, t: string, newLength: nat, now: Millis)
    ensures var (after, r) := Apply(s, ResetPassword(t, newLength, now));
      var isGood := t in s.resets && !s.resets[t].used && now < s.resets[t].expiresAt;
      && (r.WeakPassword? <==> newLength < 12)
      && (r.ResetTokenInvalid? <==> newLength >= 12 && !isGood)
      && (r.PasswordSet? <==> newLength >= 12 && isGood)
      && (!r.PasswordSet? ==> after == s)
      && (r.PasswordSet? ==> t in after.resets && after.resets[t].used)
      && (r.PasswordSet? ==> RevokesUser(s.rows, after.rows, s.resets[t].userId))
  {
  }

  /** The token of a login is accepted until the expiry it was given, and refused as expired after it. */
  lemma LoginIsRefreshable(s: State, login: Event, now: Millis, id: nat, expiresAt: Millis)
    requires WellFormed(s) && login.Login? && Enabled(s, login) && Fresh(Apply(s, login).0.rows, id)
    ensures var r := Apply(Apply(s, login).0, Refresh(Token(login.id, login.userId), true, now, id, expiresAt)).1;
      if now <= login.expiresAt then r == Issued(Token(id, login.userId)) else r == TokenExpired
  {
    var t := Apply(s, login).0;
    AppendKeepsWellFormed(s, Row(login.userId, Token(login.id, login.userId), login.expiresAt, false), None);
    TokenFindsItsRow(t, |s.rows|);
  }

  /** A new reset token is good until the expiry it was given, for the user it was issued to. */
  lemma ResetTokenIsGood(s: State, issue: Event, newLength: nat, now: Millis)
    requires issue.IssueReset? && Enabled(s, issue)
    ensures var t := Apply(s, issue).0; var (u, r) := Apply(t, ResetPassword(issue.resetToken, newLength, now));
      && (r.PasswordSet? <==> newLength >= 12 && now < issue.expiresAt)
      && (r.PasswordSet? ==> RevokesUser(s.rows, u.rows, issue.userId))
  {
    ResetSucceedsIff(Apply(s, issue).0, issue.resetToken, newLength, now);
  }

  // ---------- conservation ----------

  /** The number of unrevoked rows of a user. */
  function Live(rows: seq<Row>, u: UserId): nat {
    if rows == [] then 0
    else Live(rows[..|rows| - 1], u) + if rows[|rows| - 1].userId == u && !rows[|rows| - 1].revoked then 1 else 0
  }

  lemma {:induction false} LiveWhenRevoking(before: seq<Row>, after: seq<Row>, i: nat, u: UserId)
    requires i < |before| && after == RevokeById(before, i)
    ensures Live(after, u) == Live(before, u) - if before[i].userId == u && !before[i].revoked then 1 else 0
  {
    var n := |before| - 1;
    if i == n {
      assert after[..n] == before[..n];
    } else {
      assert after[..n] == RevokeById(before[..n], i);
      LiveWhenRevoking(before[..n], after[..n], i, u);
    }
  }

  lemma {:induction false} LiveWhenRevokingAll(rows: seq<Row>, v: UserId, u: UserId)
    ensures Live(RevokeAllForUser(rows, v), u) == if u == v then 0 else Live(rows, u)
  {
    if rows != [] {
      LiveWhenRevokingAll(rows[..|rows| - 1], v, u);
      assert RevokeAllForUser(rows, v)[..|rows| - 1] == RevokeAllForUser(rows[..|rows| - 1], v);
    }
  }

  lemma LiveWhenAppending(rows: seq<Row>, row: Row, u: UserId)
    ensures Live(rows + [row], u) == Live(rows, u) + if row.userId == u && !row.revoked then 1 else 0
  {
    assert (rows + [row])[..|rows|] == rows;
  }

  /** Whether an event with this outcome revokes all sessions of u. */
  predicate RevokesAllOf(s: State, e: Event, r: Outcome, u: UserId) {
    match e
    case Refresh(token, _, _, _, _) => r.TokenRevoked? && token.userId == u
    case ResetPassword(t, _, _) => r.PasswordSet? && t in s.resets && s.resets[t].userId == u
    case ChangePassword(v) => v == u
    case _ => false
  }

  /** Successful logins minus successful logouts of u since its last bulk revocation. */
  function Balance(es: seq<Event>, u: UserId): int
    requires Runs(es)
  {
    if es == [] then 0
    else
      var front, e := es[..|es| - 1], es[|es| - 1];
      var r := OutcomeAt(es, |es| - 1);
      if RevokesAllOf(After(front), e, r, u) then 0
      else if e.Login? && e.userId == u then Balance(front, u) + 1
      else if e.Logout? && r == LoggedOut(true) && e.token.userId == u then Balance(front, u) - 1
      else Balance(front, u)
  }

  lemma LogoutRevokesOne(s: State, token: Token, u: UserId)
    requires WellFormed(s)
    ensures var (rows, success) := RevokeByToken(s.rows, token);
      Live(rows, u) == Live(s.rows, u) - if success && token.userId == u then 1 else 0
  {
    var (rows, success) := RevokeByToken(s.rows, token);
    if i :| 0 <= i < |rows| && s.rows[i].token == token && !s.rows[i].revoked {
      assert forall k :: 0 <= k < |rows| && k != i ==> s.rows[k].token.id != token.id;
      assert rows == RevokeById(s.rows, i);
      LiveWhenRevoking(s.rows, rows, i, u);
    } else {
      assert rows == s.rows;
    }
  }

  lemma RotationKeepsLive(rows: seq<Row>, i: nat, row: Row, u: UserId)
    requires i < |rows| && !rows[i].revoked && !row.revoked && row.userId == rows[i].userId
    ensures Live(RevokeById(rows, i) + [row], u) == Live(rows, u)
  {
    LiveWhenRevoking(rows, RevokeById(rows, i), i, u);
    LiveWhenAppending(RevokeById(rows, i), row, u);
  }

  lemma RefreshKeepsOrRevokes(
      s: State, token: Token, jwtValid: bool, now: Millis, id: nat, expiresAt: Millis, u: UserId)
    requires WellFormed(s) && Fresh(s.rows, id)
    ensures var (t, r) := Apply(s, Refresh(token, jwtValid, now, id, expiresAt));
      Live(t.rows, u) == if r.TokenRevoked? && token.userId == u then 0 else Live(s.rows, u)
  {
    LiveWhenRevokingAll(s.rows, token.userId, u);
    var verdict := Judge(s, token, jwtValid, now);
    if verdict.Issued? {
      var next := Row(token.userId, Token(id, token.userId), expiresAt, false);
      RotationKeepsLive(s.rows, FindByToken(s.rows, token).value, next, u);
    }
  }

  /** One event changes a user's live sessions as its balance says. */
  lemma EventBalances(s: State, e: Event, u: UserId)
    requires WellFormed(s) && Enabled(s, e)
    ensures var (t, r) := Apply(s, e);
      Live(t.rows, u) ==
        if RevokesAllOf(s, e, r, u) then 0
        else if e.Login? && e.userId == u then Live(s.rows, u) + 1
        else if e.Logout? && r == LoggedOut(true) && e.token.userId == u then Live(s.rows, u) - 1
        else Live(s.rows, u)
  {
    match e
    case Login(v, id, expiresAt) => LiveWhenAppending(s.rows, Row(v, Token(id, v), expiresAt, false), u);
    case Refresh(token, jwtValid, now, id, expiresAt) =>
      RefreshKeepsOrRevokes(s, token, jwtValid, now, id, expiresAt, u);
    case Logout(token, _) => LogoutRevokesOne(s, token, u);
    case ResetPassword(t, _, _) => if t in s.resets { LiveWhenRevokingAll(s.rows, s.resets[t].userId, u); }
    case ChangePassword(v) => LiveWhenRevokingAll(s.rows, v, u);
    case SetUser(_, _) =>
    case IssueReset(_, _, _) =>
  }

  /**
   * In every run of atomic handlers the unrevoked rows of a user number exactly its successful logins
   * minus its successful logouts since its last bulk revocation.
   */
  lemma {:induction false} SessionsAreConserved(es: seq<Event>, u: UserId)
    requires Runs(es)
    ensures Live(After(es).rows, u) == Balance(es, u)
  {
    if es != [] {
      var front, e := es[..|es| - 1], es[|es| - 1];
      SessionsAreConserved(front, u);
      ChainsAreLines(front);
      EventBalances(After(front), e, u);
      assert es[..|es| - 1 + 1] == es;
    }
  }

  // ---------- one-time reset tokens ----------

  predicate SpendsReset(es: seq<Event>, k: nat, t: string)
    requires Runs(es) && k < |es|
  {
    es[k].ResetPassword? && es[k].resetToken == t && OutcomeAt(es, k).PasswordSet?
  }

  lemma EventKeepsUsed(s: State, e: Event, t: string)
    requires Enabled(s, e) && t in s.resets && s.resets[t].used
    ensures t in Apply(s, e).0.resets && Apply(s, e).0.resets[t].used
  {
  }

  lemma {:induction false} SpentStaysUsed(es: seq<Event>, k: nat, n: nat, t: string)
    requires Runs(es) && k < n <= |es| && SpendsReset(es, k, t)
    ensures t in StateAt(es, n).resets && StateAt(es, n).resets[t].used
    decreases n
  {
    StateNext(es, n - 1);
    if k < n - 1 {
      SpentStaysUsed(es, k, n - 1, t);
      EventKeepsUsed(StateAt(es, n - 1), es[n - 1], t);
    } else {
      ResetSucceedsIff(StateAt(es, k), t, es[k].newLength, es[k].now);
    }
  }

  /** No run resets a password twice with the same token. */
  lemma ResetTokensAreOneTime(es: seq<Event>, j: nat, k: nat, t: string)
    requires Runs(es) && j < |es| && k < |es| && SpendsReset(es, j, t) && SpendsReset(es, k, t)
    ensures j == k
  {
    var a, b := if j < k then j else k, if j < k then k else j;
    if a < b {
      SpentStaysUsed(es, a, b, t);
      StateNext(es, b);
      ResetSucceedsIff(StateAt(es, b), t, es[b].newLength, es[b].now);
    }
  }
}
