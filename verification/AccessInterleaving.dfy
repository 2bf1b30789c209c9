/**
 * Access tokens end to end: the updates and issuers of AccessClaims and the version cache of
 * TokenVersionInterleaving over one user row, each bump of an update running through the cache's own
 * calls while any number of token checks look the version up.
 */
module AccessInterleaving {
  import opened Accounts
  import AC = AccessClaims
  import C = TokenVersionInterleaving

  type Pid = nat

  /** The stored version is in both parts; Linked says that they agree. */
  datatype System = System(access: AC.System, cache: C.System)

  datatype Label =
    | Access(access: AC.Label)
    | Cache(cache: C.Label)

  /** A bump that has not yet incremented the row. */
  predicate IsStarting(proc: C.Proc) {
    proc.Deleting? || proc.Incrementing?
  }

  predicate Increments(s: System, l: C.Label) {
    l.Act? && l.p in s.cache.procs && s.cache.procs[l.p].Incrementing?
  }

  predicate MustBump(s: System, p: Pid) {
    p in s.access.updaters && s.access.updaters[p].MustBump?
  }

  /** An update that must bump runs its bump under its own process id; token checks have ids of their own. */
  predicate Enabled(s: System, l: Label) {
    match l
    case Access(a) => !a.BumpVersion? && AC.Enabled(s.access, a) && (a.BeginUpdate? ==> a.p !in s.cache.procs)
    case Cache(c) =>
      && C.Enabled(s.cache, c)
      && (c.StartBump? ==> MustBump(s, c.p))
      && (c.StartLookup? ==> c.p !in s.access.updaters)
  }

  function Next(s: System, l: Label): System
    requires Enabled(s, l)
  {
    match l
    case Access(a) => s.(access := AC.Next(s.access, a))
    case Cache(c) =>
      var access :=
        if Increments(s, c) && MustBump(s, c.p) then AC.Next(s.access, AC.BumpVersion(c.p)) else s.access;
      System(access, C.Next(s.cache, c))
  }

  predicate Runs(s: System, ls: seq<Label>)
    decreases |ls|
  {
    ls == [] || (Enabled(s, ls[0]) && Runs(Next(s, ls[0]), ls[1..]))
  }

  function End(s: System, ls: seq<Label>): System
    requires Runs(s, ls)
    decreases |ls|
  {
    if ls == [] then s else End(Next(s, ls[0]), ls[1..])
  }

  /** No step loses a row write over tokens of the stored version, crosses a write-back or abandons a stale cache. */
  ghost predicate IsOrderly(s: System, l: Label)
    requires Enabled(s, l)
  {
    match l
    case Access(a) => !(AC.IsLost(s.access, a) && AC.SomeHeldOfStored(s.access))
    case Cache(c) => !C.Crosses(s.cache, c) && !C.Abandons(s.cache, c)
  }

  ghost predicate Orderly(s: System, ls: seq<Label>)
    requires Runs(s, ls)
    decreases |ls|
  {
    ls == [] || (IsOrderly(s, ls[0]) && Orderly(Next(s, ls[0]), ls[1..]))
  }

  /** The parts agree on the version, and each bump that is still to increment is owed by its update. */
  ghost predicate Linked(s: System) {
    && s.access.user.tokenVersion == s.cache.store.stored
    && (forall p :: p in s.cache.procs && IsStarting(s.cache.procs[p]) ==> MustBump(s, p))
    && (forall p :: p in s.access.updaters && p in s.cache.procs ==> IsStarting(s.cache.procs[p]))
  }

  ghost predicate Invariant(s: System) {
    Linked(s) && AC.Consistent(s.access) && C.Tidy(s.cache)
  }

  lemma StepStaysLinked(s: System, l: Label)
    requires Linked(s) && Enabled(s, l)
    ensures Linked(Next(s, l))
  {
    var t := Next(s, l);
    forall p | p in t.cache.procs && IsStarting(t.cache.procs[p])
      ensures MustBump(t, p)
    {
      assert l == Cache(C.StartBump(p)) || (p in s.cache.procs && IsStarting(s.cache.procs[p]));
      assert MustBump(s, p);
    }
    forall p | p in t.access.updaters && p in t.cache.procs
      ensures IsStarting(t.cache.procs[p])
    {
      assert p in s.access.updaters;
    }
  }

  lemma StepKeepsInvariant(s: System, l: Label)
    requires Invariant(s) && Enabled(s, l) && IsOrderly(s, l)
    ensures Invariant(Next(s, l))
  {
    StepStaysLinked(s, l);
    match l
    case Access(a) => AC.StepIsConsistentIff(s.access, a);
    case Cache(c) =>
      C.OrderlyStepKeepsTidy(s.cache, c);
      if Increments(s, c) {
        assert IsStarting(s.cache.procs[c.p]);
        AC.StepIsConsistentIff(s.access, AC.BumpVersion(c.p));
      }
  }

  lemma {:induction false} InvariantThroughout(s: System, ls: seq<Label>)
    requires Invariant(s) && Runs(s, ls) && Orderly(s, ls)
    ensures Invariant(End(s, ls))
    decreases |ls|
  {
    if ls != [] {
      StepKeepsInvariant(s, ls[0]);
      InvariantThroughout(Next(s, ls[0]), ls[1..]);
    }
  }

  /** No update is between its row write and the end of its bump. */
  ghost predicate AtRest(s: System) {
    AC.NothingDue(s.access) && C.AtRest(s.cache)
  }

  /** Steps that write no user row: issuers, token checks, evictions, and an update's read before its write. */
  predicate IsQuiet(l: Label) {
    match l
    case Access(a) => a.ReadUser? || a.Sign? || a.BeginUpdate?
    case Cache(_) => true
  }

  predicate Quiet(ls: seq<Label>) {
    forall k :: 0 <= k < |ls| ==> IsQuiet(ls[k])
  }

  /** A lookup under way that can only answer version v. */
  predicate Answers(proc: C.Proc, v: int) {
    match proc
    case Getting => true
    case Fetching => true
    case Restoring(w) => w == v
    case Returned(w) => w == v
    case _ => false
  }

  /** At rest, and every process that is not among the earlier ones looks up the stored version. */
  ghost predicate Resting(s: System, earlier: set<Pid>) {
    && Invariant(s) && AtRest(s)
    && forall p :: p in s.cache.procs && p !in earlier ==> Answers(s.cache.procs[p], s.cache.store.stored)
  }

  lemma QuietStepRests(s: System, l: Label, earlier: set<Pid>)
    requires Resting(s, earlier) && Enabled(s, l) && IsQuiet(l)
    ensures Resting(Next(s, l), earlier) && Next(s, l).access.user == s.access.user
  {
    assert s.cache.store.entry.Cached? ==> s.cache.store.entry.version == s.cache.store.stored;
    forall p | p in s.cache.procs
      ensures !IsStarting(s.cache.procs[p])
    {
      assert !MustBump(s, p);
    }
    StepKeepsInvariant(s, l);
  }

  lemma {:induction false} QuietRunRests(s: System, ls: seq<Label>, earlier: set<Pid>)
    requires Resting(s, earlier) && Runs(s, ls) && Quiet(ls)
    ensures Resting(End(s, ls), earlier) && End(s, ls).access.user == s.access.user
    decreases |ls|
  {
    if ls != [] {
      QuietStepRests(s, ls[0], earlier);
      QuietRunRests(Next(s, ls[0]), ls[1..], earlier);
    }
  }

  /**
   * After any orderly run that comes to rest, and while it rests: every token check that starts then,
   * overlapping any number of others and with Redis failing at will, compares with the stored version,
   * and a token it accepts carries the stored role of a user who is not blocked.
   */
  lemma TokensAcceptedAtRestAreCurrent(s: System, ls: seq<Label>, more: seq<Label>, p: Pid, c: Claims)
    requires Invariant(s) && Runs(s, ls) && Orderly(s, ls) && AtRest(End(s, ls))
    requires Runs(End(s, ls), more) && Quiet(more)
    requires p !in End(s, ls).cache.procs
    requires var e := End(End(s, ls), more);
      && p in e.cache.procs && e.cache.procs[p].Returned?
      && c in e.access.issued && AC.Accepts(c, e.cache.procs[p].v)
    ensures var u := End(End(s, ls), more).access.user;
      u == End(s, ls).access.user && c.tokenVersion == u.tokenVersion && c.roleId == u.roleId && !u.blocked
  {
    var t := End(s, ls);
    var e := End(t, more);
    InvariantThroughout(s, ls);
    QuietRunRests(t, more, t.cache.procs.Keys);
    assert Answers(e.cache.procs[p], e.cache.store.stored);
    assert AC.IsHeld(e.access, c);
  }
}
