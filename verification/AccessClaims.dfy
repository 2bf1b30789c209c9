/**
 * Access tokens against the stored row of their user: any number of updates, unlocks, logins and
 * refreshes interleaved at every database statement.
 */
module AccessClaims {
  import opened Options
  import opened Accounts
  import TokenVersions

  type Pid = nat

  /** The columns an update gives; None leaves a column alone. */
  datatype Payload = Payload(
    roleId: Option<RoleId>,
    verified: Option<bool>,
    blocked: Option<bool>,
    password: Option<Option<string>>,
    lock: Option<Lock>)

  const NOTHING := Payload(None, None, None, None, None)

  function GetOr<T>(given: Option<T>, old_: T): T {
    if given.Some? then given.value else old_
  }

  function Updated(u: User, p: Payload): User {
    u.(roleId := GetOr(p.roleId, u.roleId),
       verified := GetOr(p.verified, u.verified),
       blocked := GetOr(p.blocked, u.blocked),
       password := GetOr(p.password, u.password),
       lock := GetOr(p.lock, u.lock))
  }

  /** Column by column: a given value is stored, an absent one leaves the column; id and version are never written. */
  lemma UpdatedColumns(u: User, p: Payload)
    ensures var w := Updated(u, p);
      && (if p.roleId.Some? then w.roleId == p.roleId.value else w.roleId == u.roleId)
      && (if p.verified.Some? then w.verified == p.verified.value else w.verified == u.verified)
      && (if p.blocked.Some? then w.blocked == p.blocked.value else w.blocked == u.blocked)
      && (if p.password.Some? then w.password == p.password.value else w.password == u.password)
      && (if p.lock.Some? then w.lock == p.lock.value else w.lock == u.lock)
      && w.id == u.id && w.tokenVersion == u.tokenVersion
  {
  }

  /** The row of a user after an update changes what access tokens say. */
  predicate ChangesClaims(u: User, p: Payload) {
    Updated(u, p).roleId != u.roleId || Updated(u, p).blocked != u.blocked
  }

  predicate ShouldInvalidate(previousRoleId: RoleId, previousBlocked: bool, p: Payload) {
    || (p.roleId.Some? && p.roleId.value != previousRoleId)
    || (p.blocked.Some? && p.blocked.value != previousBlocked)
  }

  /** How far an update is: it has read the previous values, or written the row and owes the bump. */
  datatype Updater =
    | Prepared(previousRoleId: RoleId, previousBlocked: bool, payload: Payload)
    | MustBump

  /** Issuers hold the claims they read and will sign; `issued` is every token ever signed. */
  datatype System = System(user: User, updaters: map<Pid, Updater>, issuers: map<Pid, Claims>, issued: set<Claims>)

  datatype Label =
    | BeginUpdate(p: Pid, payload: Payload)
    | WriteRow(p: Pid)
    | BumpVersion(p: Pid)
    | UnlockUser
    | ReadUser(p: Pid)
    | Sign(p: Pid)

  predicate Enabled(s: System, l: Label) {
    match l
    case BeginUpdate(p, _) => p !in s.updaters
    case WriteRow(p) => p in s.updaters && s.updaters[p].Prepared?
    case BumpVersion(p) => p in s.updaters && s.updaters[p].MustBump?
    case UnlockUser => true
    case ReadUser(p) => p !in s.issuers
    case Sign(p) => p in s.issuers
  }

  predicate Invalidates(w: Updater)
    requires w.Prepared?
  {
    ShouldInvalidate(w.previousRoleId, w.previousBlocked, w.payload)
  }

  function Next(s: System, l: Label): System
    requires Enabled(s, l)
  {
    match l
    case BeginUpdate(p, payload) =>
      s.(updaters := s.updaters[p := Prepared(s.user.roleId, s.user.blocked, payload)])
    case WriteRow(p) =>
      var w := s.updaters[p];
      s.(user := Updated(s.user, w.payload),
         updaters := if Invalidates(w) then s.updaters[p := MustBump] else s.updaters - {p})
    case BumpVersion(p) =>
      s.(user := s.user.(tokenVersion := s.user.tokenVersion + 1), updaters := s.updaters - {p})
    case UnlockUser => s.(user := s.user.(blocked := false, lock := CLEAN))
    case ReadUser(p) =>
      if s.user.verified && !s.user.blocked then s.(issuers := s.issuers[p := ClaimsOf(s.user)]) else s
    case Sign(p) => s.(issued := s.issued + {s.issuers[p]}, issuers := s.issuers - {p})
  }

  predicate Runs(s: System, ls: seq<Label>)
    decreases |ls|
  {
    ls == [] || (Enabled(s, ls[0]) && Runs(Next(s, ls[0]), ls[1..]))
  }

  function End(s: System, ls: seq<Label>): System
    requires Runs(s, ls)
    decreases |ls|
  {
    if ls == [] then s else End(Next(s, ls[0]), ls[1..])
  }

  // ---------- which tokens are current ----------

  predicate IsCurrent(c: Claims, u: User) {
    c.roleId == u.roleId && !u.blocked
  }

  /** No update is between its row write and its bump. */
  predicate NothingDue(s: System) {
    forall p :: p in s.updaters ==> !s.updaters[p].MustBump?
  }

  /** Claims that are signed, or read and about to be. */
  predicate IsHeld(s: System, c: Claims) {
    c in s.issued || exists p :: p in s.issuers && s.issuers[p] == c
  }

  /** Claims are never from the future, and those of the stored version are current unless a bump is due. */
  ghost predicate Consistent(s: System) {
    && (forall c :: IsHeld(s, c) ==> c.tokenVersion <= s.user.tokenVersion)
    && (NothingDue(s) ==>
          forall c :: IsHeld(s, c) && c.tokenVersion == s.user.tokenVersion ==> IsCurrent(c, s.user))
  }

  /**
   * A row write that changes what tokens say but, judging by what its update read before, owes no bump,
   * while no other bump is due: another update or an unlock came in between.
   */
  predicate IsLost(s: System, l: Label)
    requires Enabled(s, l)
  {
    && l.WriteRow? && ChangesClaims(s.user, s.updaters[l.p].payload) && !Invalidates(s.updaters[l.p])
    && NothingDue(s)
  }

  ghost predicate SomeHeldOfStored(s: System) {
    exists c :: IsHeld(s, c) && c.tokenVersion == s.user.tokenVersion
  }

  lemma HeldAfter(s: System, l: Label, c: Claims)
    requires Enabled(s, l)
    ensures IsHeld(Next(s, l), c) <==>
      IsHeld(s, c) || (l.ReadUser? && s.user.verified && !s.user.blocked && c == ClaimsOf(s.user))
  {
    var t := Next(s, l);
    if p :| p in s.issuers && s.issuers[p] == c {
      assert (l.Sign? && l.p == p) || (p in t.issuers && t.issuers[p] == c);
    }
    if l.ReadUser? && s.user.verified && !s.user.blocked && c == ClaimsOf(s.user) {
      assert t.issuers[l.p] == c;
    }
  }

  /** A lost write makes every token of the stored version stale, with no bump due. */
  lemma LostWriteMakesStale(s: System, l: Label, c: Claims)
    requires Consistent(s) && Enabled(s, l) && IsLost(s, l)
    requires IsHeld(s, c) && c.tokenVersion == s.user.tokenVersion
    ensures NothingDue(Next(s, l)) && IsHeld(Next(s, l), c)
    ensures c.tokenVersion == Next(s, l).user.tokenVersion && !IsCurrent(c, Next(s, l).user)
  {
    HeldAfter(s, l, c);
    assert IsCurrent(c, s.user);
  }

  lemma DueStays(s: System, l: Label, p: Pid)
    requires Enabled(s, l) && p in s.updaters && s.updaters[p].MustBump? && l != BumpVersion(p)
    ensures !NothingDue(Next(s, l))
  {
    assert p in Next(s, l).updaters && Next(s, l).updaters[p].MustBump?;
  }

  lemma OtherStepsAreConsistent(s: System, l: Label)
    requires Consistent(s) && Enabled(s, l) && !(IsLost(s, l) && SomeHeldOfStored(s))
    ensures Consistent(Next(s, l))
  {
    var t := Next(s, l);
    forall c | IsHeld(t, c)
      ensures c.tokenVersion <= t.user.tokenVersion
      ensures NothingDue(t) && c.tokenVersion == t.user.tokenVersion ==> IsCurrent(c, t.user)
    {
      HeldAfter(s, l, c);
      if !NothingDue(s) && !l.BumpVersion? {
        var p :| p in s.updaters && s.updaters[p].MustBump?;
        DueStays(s, l, p);
      }
      if l.WriteRow? && Invalidates(s.updaters[l.p]) {
        assert t.updaters[l.p].MustBump?;
      }
    }
  }

  /**
   * One statement keeps claims and row consistent exactly unless it is a lost write while claims of the
   * stored version are held.
   */
  lemma StepIsConsistentIff(s: System, l: Label)
    requires Consistent(s) && Enabled(s, l)
    ensures Consistent(Next(s, l)) <==> !(IsLost(s, l) && SomeHeldOfStored(s))
  {
    if IsLost(s, l) && SomeHeldOfStored(s) {
      var c :| IsHeld(s, c) && c.tokenVersion == s.user.tokenVersion;
      LostWriteMakesStale(s, l, c);
    } else {
      OtherStepsAreConsistent(s, l);
    }
  }

  /** No write of the run is lost over tokens of the stored version. */
  ghost predicate Orderly(s: System, ls: seq<Label>)
    requires Runs(s, ls)
    decreases |ls|
  {
    ls == [] || (!(IsLost(s, ls[0]) && SomeHeldOfStored(s)) && Orderly(Next(s, ls[0]), ls[1..]))
  }

  ghost predicate ConsistentThroughout(s: System, ls: seq<Label>)
    requires Runs(s, ls)
    decreases |ls|
  {
    Consistent(s) && (ls == [] || ConsistentThroughout(Next(s, ls[0]), ls[1..]))
  }

  /** Over whole runs, with any number of updates, unlocks, logins and refreshes at once: the condition is exact. */
  lemma {:induction false} RunIsConsistentIff(s: System, ls: seq<Label>)
    requires Consistent(s) && Runs(s, ls)
    ensures ConsistentThroughout(s, ls) <==> Orderly(s, ls)
    decreases |ls|
  {
    if ls != [] {
      StepIsConsistentIff(s, ls[0]);
      if Consistent(Next(s, ls[0])) {
        RunIsConsistentIff(Next(s, ls[0]), ls[1..]);
      } else {
        assert !ConsistentThroughout(Next(s, ls[0]), ls[1..]);
      }
    }
  }

  /**
   * Whenever no update is between its row write and its bump, every token ever issued whose version is
   * the stored one carries the stored role, and there is none while the user is blocked, unless a write
   * was lost on the way.
   */
  lemma {:induction false} TokensOfTheStoredVersionAreCurrent(s: System, ls: seq<Label>)
    requires Consistent(s) && Runs(s, ls) && Orderly(s, ls)
    ensures Consistent(End(s, ls))
    ensures NothingDue(End(s, ls)) ==>
      forall c :: c in End(s, ls).issued && c.tokenVersion == End(s, ls).user.tokenVersion ==>
        c.roleId == End(s, ls).user.roleId && !End(s, ls).user.blocked
    decreases |ls|
  {
    if ls != [] {
      StepIsConsistentIff(s, ls[0]);
      TokensOfTheStoredVersionAreCurrent(Next(s, ls[0]), ls[1..]);
    }
    var t := End(s, ls);
    assert forall c :: c in t.issued ==> IsHeld(t, c);
  }

  // ---------- serialised updates and unlocks lose nothing ----------

  /** Updates and unlocks of the user follow one another; logins and refreshes do not wait. */
  predicate Serialised(s: System, ls: seq<Label>)
    requires Runs(s, ls)
    decreases |ls|
  {
    ls == [] ||
    ((ls[0].BeginUpdate? || ls[0].UnlockUser? ==> s.updaters == map[]) && Serialised(Next(s, ls[0]), ls[1..]))
  }

  /** One update at most, and what it read is still so. */
  predicate IsAlone(s: System) {
    && (forall p, q :: p in s.updaters && q in s.updaters ==> p == q)
    && forall p :: p in s.updaters && s.updaters[p].Prepared? ==>
         s.updaters[p].previousRoleId == s.user.roleId && s.updaters[p].previousBlocked == s.user.blocked
  }

  lemma {:induction false} SerialisedRunsAreOrderly(s: System, ls: seq<Label>)
    requires Runs(s, ls) && Serialised(s, ls) && IsAlone(s)
    ensures Orderly(s, ls)
    decreases |ls|
  {
    if ls != [] {
      SerialisedRunsAreOrderly(Next(s, ls[0]), ls[1..]);
    }
  }

  // ---------- overlapping ones do lose tokens ----------

  lemma Prepend(t: System, rest: seq<Label>, s: System, l: Label) returns (ls: seq<Label>)
    requires Enabled(s, l) && Next(s, l) == t && Runs(t, rest)
    ensures ls == [l] + rest && Runs(s, ls) && End(s, ls) == End(t, rest)
  {
    ls := [l] + rest;
    assert ls[1..] == rest;
  }

  /** A user with no update under way and no tokens yet. */
  function Quiet(u: User): System {
    System(u, map[], map[], {})
  }

  /**
   * Two updates that overlap: one gives the role back that the user had when it began, after the other
   * has changed it, bumped, and a login has issued a token. Nothing is due, and the token is stale.
   */
  lemma OverlappingUpdatesKeepAStaleToken(u: User, role: RoleId) returns (ls: seq<Label>)
    requires u.verified && !u.blocked && u.roleId != role
    ensures Runs(Quiet(u), ls)
    ensures var t := End(Quiet(u), ls); var c := Claims(u.id, role, u.tokenVersion + 1);
      t.updaters == map[] && c in t.issued && c.tokenVersion == t.user.tokenVersion && c.roleId != t.user.roleId
  {
    var s := Quiet(u);
    var s1 := Next(s, BeginUpdate(1, NOTHING.(roleId := Some(u.roleId))));
    var s2 := Next(s1, BeginUpdate(0, NOTHING.(roleId := Some(role))));
    var s3 := Next(s2, WriteRow(0));
    var s4 := Next(s3, BumpVersion(0));
    var s5 := Next(s4, ReadUser(2));
    var s6 := Next(s5, Sign(2));
    assert s6.updaters[1] == Prepared(u.roleId, u.blocked, NOTHING.(roleId := Some(u.roleId)));
    var s7 := Next(s6, WriteRow(1));
    ls := Prepend(s7, [], s6, WriteRow(1));
    ls := Prepend(s6, ls, s5, Sign(2));
    ls := Prepend(s5, ls, s4, ReadUser(2));
    ls := Prepend(s4, ls, s3, BumpVersion(0));
    ls := Prepend(s3, ls, s2, WriteRow(0));
    ls := Prepend(s2, ls, s1, BeginUpdate(0, NOTHING.(roleId := Some(role))));
    ls := Prepend(s1, ls, s, BeginUpdate(1, NOTHING.(roleId := Some(u.roleId))));
  }

  /** An unlock inside an update that blocks again: the user ends blocked, with a token of the stored version. */
  lemma OverlappingUnlockLeavesABlockedToken(u: User) returns (ls: seq<Label>)
    requires u.verified && u.blocked
    ensures Runs(Quiet(u), ls)
    ensures var t := End(Quiet(u), ls);
      && t.updaters == map[] && t.user.blocked
      && ClaimsOf(u) in t.issued && ClaimsOf(u).tokenVersion == t.user.tokenVersion
  {
    var s := Quiet(u);
    var payload := NOTHING.(blocked := Some(true));
    var s1 := Next(s, BeginUpdate(0, payload));
    var s2 := Next(s1, UnlockUser);
    var s3 := Next(s2, ReadUser(1));
    var s4 := Next(s3, Sign(1));
    var s5 := Next(s4, WriteRow(0));
    ls := Prepend(s5, [], s4, WriteRow(0));
    ls := Prepend(s4, ls, s3, Sign(1));
    ls := Prepend(s3, ls, s2, ReadUser(1));
    ls := Prepend(s2, ls, s1, UnlockUser);
    ls := Prepend(s1, ls, s, BeginUpdate(0, payload));
  }

  // ---------- between a row write and its bump ----------

  /** Steps that leave the row as it is. */
  predicate WritesNoRow(ls: seq<Label>) {
    forall k :: 0 <= k < |ls| ==> ls[k].BeginUpdate? || ls[k].ReadUser? || ls[k].Sign?
  }

  lemma {:induction false} RowStays(s: System, ls: seq<Label>, c: Claims)
    requires Runs(s, ls) && WritesNoRow(ls)
    ensures End(s, ls).user == s.user
    ensures IsHeld(s, c) ==> IsHeld(End(s, ls), c)
    ensures IsHeld(End(s, ls), c) ==> IsHeld(s, c) || (!s.user.blocked && c == ClaimsOf(s.user))
    decreases |ls|
  {
    if ls != [] {
      HeldAfter(s, ls[0], c);
      RowStays(Next(s, ls[0]), ls[1..], c);
    }
  }

  /**
   * From a row write that changes what tokens say until the row is next written, by its bump for one:
   * claims of the stored version are current exactly when they were not held before the write, that is,
   * when they were read after it.
   */
  lemma CurrentBeforeTheBumpIff(s: System, p: Pid, ls: seq<Label>, c: Claims)
    requires Consistent(s) && NothingDue(s) && Enabled(s, WriteRow(p)) && ChangesClaims(s.user, s.updaters[p].payload)
    requires Runs(Next(s, WriteRow(p)), ls) && WritesNoRow(ls)
    requires var e := End(Next(s, WriteRow(p)), ls); IsHeld(e, c) && c.tokenVersion == e.user.tokenVersion
    ensures IsCurrent(c, End(Next(s, WriteRow(p)), ls).user) <==> !IsHeld(s, c)
  {
    var t := Next(s, WriteRow(p));
    HeldAfter(s, WriteRow(p), c);
    RowStays(t, ls, c);
    if IsHeld(s, c) {
      assert IsCurrent(c, s.user);
    }
  }

  /** It does happen: a token signed just before a role change still has the stored version. */
  lemma StaleBeforeTheBump(u: User, role: RoleId) returns (ls: seq<Label>)
    requires u.verified && !u.blocked && u.roleId != role
    ensures Runs(Quiet(u), ls)
    ensures var t := End(Quiet(u), ls);
      && !NothingDue(t) && ClaimsOf(u) in t.issued
      && ClaimsOf(u).tokenVersion == t.user.tokenVersion && ClaimsOf(u).roleId != t.user.roleId
  {
    var s := Quiet(u);
    var payload := NOTHING.(roleId := Some(role));
    var s1 := Next(s, ReadUser(0));
    var s2 := Next(s1, Sign(0));
    var s3 := Next(s2, BeginUpdate(0, payload));
    var s4 := Next(s3, WriteRow(0));
    assert s4.updaters[0].MustBump?;
    ls := Prepend(s4, [], s3, WriteRow(0));
    ls := Prepend(s3, ls, s2, BeginUpdate(0, payload));
    ls := Prepend(s2, ls, s1, Sign(0));
    ls := Prepend(s1, ls, s, ReadUser(0));
  }

  /** An update that nothing interrupts raises the version exactly when it changes the role or the blocked flag. */
  lemma UpdateAlone(s: System, p: Pid, payload: Payload) returns (ls: seq<Label>)
    requires p !in s.updaters
    ensures Runs(s, ls)
    ensures var w := Updated(s.user, payload);
      End(s, ls) == s.(user :=
        if ChangesClaims(s.user, payload) then w.(tokenVersion := s.user.tokenVersion + 1) else w)
  {
    var s1 := Next(s, BeginUpdate(p, payload));
    var s2 := Next(s1, WriteRow(p));
    ls := [];
    if Invalidates(s1.updaters[p]) {
      var s3 := Next(s2, BumpVersion(p));
      assert s3.updaters == s.updaters;
      ls := Prepend(s3, [], s2, BumpVersion(p));
    } else {
      assert s2.updaters == s.updaters;
    }
    ls := Prepend(s2, ls, s1, WriteRow(p));
    ls := Prepend(s1, ls, s, BeginUpdate(p, payload));
  }

  /** The acceptance test for access tokens, given what the version lookup answers. */
  predicate Accepts(c: Claims, currentVersion: int) {
    c.userId != "" && c.roleId != "" && c.tokenVersion == currentVersion
  }

  /**
   * End to end: in any orderly run, while no bump is due and the version cache is coherent, a token that is
   * accepted carries the stored role and its user is not blocked, whether or not Redis answers.
   */
  lemma AcceptedTokensAreCurrent(
      s: System, ls: seq<Label>, c: Claims, entry: TokenVersions.Entry, getFails: bool, restore: TokenVersions.Call)
    requires Consistent(s) && Runs(s, ls) && Orderly(s, ls)
    requires NothingDue(End(s, ls)) && c in End(s, ls).issued
    requires var store := TokenVersions.Store(End(s, ls).user.tokenVersion, entry);
      TokenVersions.Coherent(store) && Accepts(c, TokenVersions.Lookup(store, getFails, restore).1)
    ensures c.roleId == End(s, ls).user.roleId && !End(s, ls).user.blocked
  {
    TokensOfTheStoredVersionAreCurrent(s, ls);
  }
}
