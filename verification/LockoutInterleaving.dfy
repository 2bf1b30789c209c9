/**
 * The lockout columns when any number of login handlers run at once. Each database statement and each
 * clock reading is a step of its own, so handlers decide on stale copies of the row.
 */
module LockoutInterleaving {
  import opened Options
  import opened Accounts
  import opened Lockout

  type Pid = nat

  /** Where a login handler is: it has read the row, passed the guards, or knows what it will write. */
  datatype Handler =
    | Fetched(user: User)
    | Admitted(read: Lock)
    | Writing(lock: Lock)

  datatype System = System(user: User, clock: Millis, handlers: map<Pid, Handler>)

  datatype Label =
    | Tick(to: Millis)
    | Fetch(p: Pid)
    | Guard(p: Pid)
    | Decide(p: Pid, valid: bool)
    | Write(p: Pid)
    | EditUser(verified: bool, blocked: bool, password: Option<string>)
    | UnlockUser

  /** The guards a handler applies to the row it fetched, at the present clock. */
  predicate Passes(u: User, now: Millis) {
    u.verified && !u.blocked && !IsLocked(u.lock, now)
  }

  /** The update of the lockout columns a verdict calls for, if any. */
  function Payload(read: Lock, valid: bool, now: Millis): Option<Lock> {
    if !valid then Some(AfterFailure(read, now))
    else if read.attempts != 0 || read.lockedUntil.Some? || read.windowStart.Some? then Some(CLEAN)
    else None
  }

  predicate Enabled(s: System, l: Label) {
    match l
    case Tick(to) => s.clock <= to
    case Fetch(p) => p !in s.handlers
    case Guard(p) => p in s.handlers && s.handlers[p].Fetched?
    case Decide(p, _) => p in s.handlers && s.handlers[p].Admitted?
    case Write(p) => p in s.handlers && s.handlers[p].Writing?
    case EditUser(_, _, _) => true
    case UnlockUser => true
  }

  function Next(s: System, l: Label): System
    requires Enabled(s, l)
  {
    match l
    case Tick(to) => s.(clock := to)
    case Fetch(p) => s.(handlers := s.handlers[p := Fetched(s.user)])
    case Guard(p) =>
      var u := s.handlers[p].user;
      s.(handlers := if Passes(u, s.clock) then s.handlers[p := Admitted(u.lock)] else s.handlers - {p})
    case Decide(p, valid) =>
      var payload := Payload(s.handlers[p].read, valid, s.clock);
      s.(handlers := if payload.Some? then s.handlers[p := Writing(payload.value)] else s.handlers - {p})
    case Write(p) =>
      s.(user := s.user.(lock := s.handlers[p].lock), handlers := s.handlers - {p})
    case EditUser(verified, blocked, password) =>
      s.(user := s.user.(verified := verified, blocked := blocked, password := password))
    case UnlockUser => s.(user := s.user.(blocked := false, lock := CLEAN))
  }

  /** A run is the labels it takes. */
  predicate Runs(s: System, ls: seq<Label>)
    decreases |ls|
  {
    ls == [] || (Enabled(s, ls[0]) && Runs(Next(s, ls[0]), ls[1..]))
  }

  function End(s: System, ls: seq<Label>): System
    requires Runs(s, ls)
    decreases |ls|
  {
    if ls == [] then s else End(Next(s, ls[0]), ls[1..])
  }

  // ---------- the invariant ----------

  /** Consistent lockout columns. */
  predicate Sound(l: Lock, now: Millis) {
    && 0 <= l.attempts <= LOCK_ATTEMPT_THRESHOLD
    && (l.attempts == 0 <==> l.windowStart.None?)
    && (l.attempts == LOCK_ATTEMPT_THRESHOLD <==> l.lockedUntil.Some?)
    && (l.windowStart.Some? ==> l.windowStart.value <= now)
    && (l.lockedUntil.Some? ==> l.windowStart.value + LOCK_DURATION_MS <= l.lockedUntil.value)
  }

  predicate SoundHandler(h: Handler, now: Millis) {
    match h
    case Fetched(u) => Sound(u.lock, now)
    case Admitted(read) => Sound(read, now) && !IsLocked(read, now)
    case Writing(lock) => Sound(lock, now)
  }

  predicate SoundSystem(s: System) {
    && Sound(s.user.lock, s.clock)
    && forall p :: p in s.handlers ==> SoundHandler(s.handlers[p], s.clock)
  }

  /** A failure decided on an unlocked sound copy writes sound columns, however old the copy is. */
  lemma FailureIsSound(read: Lock, now: Millis)
    requires Sound(read, now) && !IsLocked(read, now)
    ensures Sound(AfterFailure(read, now), now)
    ensures read.lockedUntil.Some? ==> AfterFailure(read, now) == Lock(1, Some(now), None)
  {
  }

  lemma StepIsSound(s: System, l: Label)
    requires SoundSystem(s) && Enabled(s, l)
    ensures SoundSystem(Next(s, l))
  {
    var t := Next(s, l);
    forall p | p in t.handlers
      ensures SoundHandler(t.handlers[p], t.clock)
    {
      assert p in s.handlers || l == Fetch(p);
      if l.Decide? && l.p == p && !l.valid {
        FailureIsSound(s.handlers[p].read, s.clock);
      }
    }
  }

  /**
   * At statement level, whatever the interleaving: between 0 and 5 attempts, none iff no window, five
   * iff a lock is set, and a lock lasts at least half an hour past its window's start.
   */
  lemma {:induction false} LockColumnsStaySound(s: System, ls: seq<Label>)
    requires SoundSystem(s) && Runs(s, ls)
    ensures SoundSystem(End(s, ls))
    decreases |ls|
  {
    if ls != [] {
      StepIsSound(s, ls[0]);
      LockColumnsStaySound(Next(s, ls[0]), ls[1..]);
    }
  }

  /**
   * In any run, a handler that was let through on a row with an expired lock starts over when the
   * password is wrong: it writes attempt 1 of a window that opens now, and no lock.
   */
  lemma ExpiredLockStartsOver(s: System, ls: seq<Label>, p: Pid)
    requires SoundSystem(s) && Runs(s, ls)
    requires Enabled(End(s, ls), Decide(p, false)) && End(s, ls).handlers[p].read.lockedUntil.Some?
    ensures Next(End(s, ls), Decide(p, false)).handlers[p] == Writing(Lock(1, Some(End(s, ls).clock), None))
  {
    LockColumnsStaySound(s, ls);
    FailureIsSound(End(s, ls).handlers[p].read, End(s, ls).clock);
  }

  /** Who is let through, on the columns the handler fetched. */
  lemma LetThroughIff(s: System, p: Pid)
    requires Enabled(s, Guard(p))
    ensures var u := s.handlers[p].user; var t := Next(s, Guard(p));
      && (p in t.handlers <==>
            u.verified && !u.blocked && (u.lock.lockedUntil.Some? ==> u.lock.lockedUntil.value <= s.clock))
      && (p in t.handlers ==> t.handlers[p] == Admitted(u.lock))
      && t.user == s.user
  {
  }

  // ---------- the atomic handler is one of the interleavings ----------

  /** The steps of one handler run that nothing interrupts. */
  function Alone(p: Pid, u: User, check: Millis, write: Millis, valid: bool): seq<Label> {
    if !Passes(u, check) then [Fetch(p), Tick(check), Guard(p)]
    else
      var verdict := valid && u.password.Some?;
      [Fetch(p), Tick(check), Guard(p), Tick(write), Decide(p, verdict)] +
      (if Payload(u.lock, verdict, write).Some? then [Write(p)] else [])
  }

  lemma RunsOne(s: System, l: Label, ls: seq<Label>)
    requires Enabled(s, l)
    ensures Runs(s, [l] + ls) <==> Runs(Next(s, l), ls)
    ensures Runs(Next(s, l), ls) ==> End(s, [l] + ls) == End(Next(s, l), ls)
  {
    assert ([l] + ls)[1..] == ls;
  }

  lemma {:induction false} RunsJoin(s: System, first: seq<Label>, rest: seq<Label>)
    requires Runs(s, first) && Runs(End(s, first), rest)
    ensures Runs(s, first + rest) && End(s, first + rest) == End(End(s, first), rest)
    decreases |first|
  {
    if first == [] {
      assert first + rest == rest;
    } else {
      RunsJoin(Next(s, first[0]), first[1..], rest);
      assert (first + rest)[1..] == first[1..] + rest;
    }
  }

  /** The first steps of a handler that nothing interrupts. */
  function Admission(p: Pid, check: Millis): seq<Label> {
    [Fetch(p), Tick(check), Guard(p)]
  }

  lemma AloneBegins(s: System, p: Pid, check: Millis)
    requires s.clock <= check && p !in s.handlers
    ensures Runs(s, Admission(p, check))
    ensures End(s, Admission(p, check)) == System(
      s.user, check, if Passes(s.user, check) then s.handlers[p := Admitted(s.user.lock)] else s.handlers)
  {
    var s1 := Next(s, Fetch(p));
    var s2 := Next(s1, Tick(check));
    var s3 := Next(s2, Guard(p));
    assert s.handlers[p := Fetched(s.user)] - {p} == s.handlers;
    assert s.handlers[p := Fetched(s.user)][p := Admitted(s.user.lock)] == s.handlers[p := Admitted(s.user.lock)];
    assert Runs(s3, []);
    RunsOne(s2, Guard(p), []);
    RunsOne(s1, Tick(check), [Guard(p)] + []);
    RunsOne(s, Fetch(p), [Tick(check)] + ([Guard(p)] + []));
    assert [Fetch(p)] + ([Tick(check)] + ([Guard(p)] + [])) == Admission(p, check);
  }

  /** Run without interference, the steps of a handler do to the row exactly what Login says. */
  lemma AloneIsLogin(s: System, p: Pid, check: Millis, write: Millis, valid: bool)
    requires s.clock <= check <= write && p !in s.handlers && Sound(s.user.lock, s.clock)
    ensures Runs(s, Alone(p, s.user, check, write, valid))
    ensures End(s, Alone(p, s.user, check, write, valid)).user == Login(s.user, check, write, valid).0
    ensures End(s, Alone(p, s.user, check, write, valid)).handlers == s.handlers
  {
    var u := s.user;
    AloneBegins(s, p, check);
    if Passes(u, check) {
      var verdict := valid && u.password.Some?;
      var s3 := End(s, Admission(p, check));
      var s4 := Next(s3, Tick(write));
      var tail := [Decide(p, verdict)] + (if Payload(u.lock, verdict, write).Some? then [Write(p)] else []);
      AloneEnds(s4, p, verdict);
      RunsOne(s3, Tick(write), tail);
      RunsJoin(s, Admission(p, check), [Tick(write)] + tail);
      assert Admission(p, check) + ([Tick(write)] + tail) == Alone(p, u, check, write, valid);
      assert s.handlers[p := Admitted(u.lock)] - {p} == s.handlers;
    }
  }

  lemma AloneEnds(s: System, p: Pid, verdict: bool)
    requires p in s.handlers && s.handlers[p].Admitted?
    ensures var read := s.handlers[p].read; var payload := Payload(read, verdict, s.clock);
      var ls := [Decide(p, verdict)] + (if payload.Some? then [Write(p)] else []);
      Runs(s, ls) && End(s, ls).handlers == s.handlers - {p} &&
      End(s, ls).user == if payload.Some? then s.user.(lock := payload.value) else s.user
  {
    var payload := Payload(s.handlers[p].read, verdict, s.clock);
    var t := Next(s, Decide(p, verdict));
    if payload.Some? {
      var t' := Next(t, Write(p));
      assert t'.handlers == s.handlers - {p};
      assert Runs(t', []);
      RunsOne(t, Write(p), []);
      assert [Write(p)] + [] == [Write(p)];
      RunsOne(s, Decide(p, verdict), [Write(p)]);
    } else {
      assert Runs(t, []);
      RunsOne(s, Decide(p, verdict), []);
    }
  }

  // ---------- one handler at a time: the bounds on failures hold ----------

  /** No login begins, and no unlock happens, while a login is under way. */
  predicate Solo(s: System, ls: seq<Label>)
    requires Runs(s, ls)
    decreases |ls|
  {
    ls == [] ||
    ((ls[0].Fetch? || ls[0].UnlockUser? ==> s.handlers == map[]) && Solo(Next(s, ls[0]), ls[1..]))
  }

  /** The times of the wrong passwords since the last success or unlock, after one more step. */
  function Recorded(s: System, l: Label, ts: seq<Millis>): seq<Millis> {
    match l
    case Decide(_, valid) => if valid then [] else ts + [s.clock]
    case UnlockUser => []
    case _ => ts
  }

  function Failures(s: System, ls: seq<Label>, ts: seq<Millis>): seq<Millis>
    requires Runs(s, ls)
    decreases |ls|
  {
    if ls == [] then ts else Failures(Next(s, ls[0]), ls[1..], Recorded(s, ls[0], ts))
  }

  /** The lock half an hour after the fifth failure is over. */
  predicate MayFail(ts: seq<Millis>, now: Millis) {
    ts != [] && Streak(ts) >= LOCK_ATTEMPT_THRESHOLD ==> ts[|ts| - 1] + LOCK_DURATION_MS <= now
  }

  /** The one login under way, if any, knows or will write what the failures so far call for. */
  predicate KeepsUp(s: System, ts: seq<Millis>, h: Handler) {
    match h
    case Fetched(u) => u.lock == LockFor(ts) && s.user.lock == LockFor(ts)
    case Admitted(read) => read == LockFor(ts) && s.user.lock == LockFor(ts) && MayFail(ts, s.clock)
    case Writing(lock) => lock == LockFor(ts)
  }

  predicate Tracks(s: System, ts: seq<Millis>) {
    && Admissible(ts) && (ts != [] ==> ts[|ts| - 1] <= s.clock)
    && (s.handlers == map[] ==> s.user.lock == LockFor(ts))
    && (forall p, q :: p in s.handlers && q in s.handlers ==> p == q)
    && (forall p :: p in s.handlers ==> KeepsUp(s, ts, s.handlers[p]))
  }

  lemma FailureTracks(ts: seq<Millis>, now: Millis)
    requires Admissible(ts) && (ts != [] ==> ts[|ts| - 1] <= now) && MayFail(ts, now)
    ensures Admissible(ts + [now]) && AfterFailure(LockFor(ts), now) == LockFor(ts + [now])
  {
    OneMoreFailure(ts, now);
    AdmissibleExtended(ts, now);
  }

  lemma DecidedTracks(t: System, p: Pid, ts: seq<Millis>)
    requires Admissible(ts) && (ts != [] ==> ts[|ts| - 1] <= t.clock)
    requires t.handlers != map[] ==> t.handlers == map[p := Writing(LockFor(ts))]
    requires t.handlers == map[] ==> t.user.lock == LockFor(ts)
    ensures Tracks(t, ts)
  {
    if t.handlers != map[] {
      assert p in t.handlers && t.handlers[p] == Writing(LockFor(ts));
    } else {
      assert t.handlers.Keys == {};
    }
  }

  lemma DecideTracks(s: System, l: Label, ts: seq<Millis>)
    requires Tracks(s, ts) && Enabled(s, l) && l.Decide?
    ensures Tracks(Next(s, l), Recorded(s, l, ts))
  {
    assert KeepsUp(s, ts, s.handlers[l.p]);
    assert s.handlers == map[l.p := s.handlers[l.p]];
    if l.valid {
      assert LockFor([]) == CLEAN;
      assert l.p in map[l.p := Writing(CLEAN)];
      DecidedTracks(Next(s, l), l.p, []);
    } else {
      FailureTracks(ts, s.clock);
      DecidedTracks(Next(s, l), l.p, ts + [s.clock]);
    }
  }

  lemma StepTracks(s: System, l: Label, ts: seq<Millis>)
    requires Tracks(s, ts) && Enabled(s, l)
    requires l.Fetch? || l.UnlockUser? ==> s.handlers == map[]
    ensures Tracks(Next(s, l), Recorded(s, l, ts))
  {
    if l.Decide? {
      DecideTracks(s, l, ts);
    } else if l.Guard? || l.Write? {
      assert KeepsUp(s, ts, s.handlers[l.p]);
      assert s.handlers == map[l.p := s.handlers[l.p]];
    } else {
      assert forall p :: p in s.handlers ==> KeepsUp(s, ts, s.handlers[p]);
    }
  }

  lemma {:induction false} SoloTracks(s: System, ls: seq<Label>, ts: seq<Millis>)
    requires Tracks(s, ts) && Runs(s, ls) && Solo(s, ls)
    ensures Tracks(End(s, ls), Failures(s, ls, ts))
    decreases |ls|
  {
    if ls != [] {
      StepTracks(s, ls[0], ts);
      SoloTracks(Next(s, ls[0]), ls[1..], Recorded(s, ls[0], ts));
    }
  }

  /**
   * In every run from a clean idle row in which no login begins and no unlock happens while a login is
   * under way, the failures since the last clearing respect window and lock, so they are amortised and
   * at most eight fall within W ms; and between logins the row says exactly which they were.
   */
  lemma SoloFailuresAreBounded(s: System, ls: seq<Label>)
    requires s.user.lock == CLEAN && s.handlers == map[] && Runs(s, ls) && Solo(s, ls)
    ensures var ts := Failures(s, ls, []);
      && Admissible(ts)
      && (ts != [] ==> (|ts| - 5) * 900_001 <= 4 * (ts[|ts| - 1] - ts[0]))
      && (forall i: nat :: i + 8 < |ts| ==> ts[i + 8] - ts[i] > 900_000)
      && (End(s, ls).handlers == map[] ==> End(s, ls).user.lock == LockFor(ts))
  {
    SoloTracks(s, ls, []);
    var ts := Failures(s, ls, []);
    if ts != [] {
      AmortisedTimes(ts);
    }
    forall i: nat | i + 8 < |ts|
      ensures ts[i + 8] - ts[i] > 900_000
    {
      NoNineWithinAWindow(ts, i);
    }
  }

  /** The condition on unlocks is real: whoever is let through on an older copy writes its count back over one. */
  lemma StaleFailureUndoesUnlock(s: System, p: Pid) returns (ls: seq<Label>)
    requires p in s.handlers && s.handlers[p].Admitted?
    ensures ls == [UnlockUser, Decide(p, false), Write(p)] && Runs(s, ls)
    ensures End(s, ls).user.lock == AfterFailure(s.handlers[p].read, s.clock)
  {
    var t := Next(s, UnlockUser);
    Pair(t, Decide(p, false), Write(p));
    RunsOne(s, UnlockUser, [Decide(p, false), Write(p)]);
    ls := [UnlockUser, Decide(p, false), Write(p)];
    assert [UnlockUser] + [Decide(p, false), Write(p)] == ls;
  }

  // ---------- overlapping failures count once ----------

  lemma Pair(s: System, a: Label, b: Label)
    requires Enabled(s, a) && Enabled(Next(s, a), b)
    ensures Runs(s, [a, b]) && End(s, [a, b]) == Next(Next(s, a), b)
  {
    assert Runs(Next(Next(s, a), b), []);
    RunsOne(Next(s, a), b, []);
    assert [b] + [] == [b];
    RunsOne(s, a, [b]);
    assert [a] + [b] == [a, b];
  }

  /** Handlers 0 to n-1 are let through on one copy of the row. */
  function Crowd(n: nat, read: Lock): (r: map<Pid, Handler>)
    ensures forall p: Pid :: p in r <==> p < n
  {
    if n == 0 then map[] else Crowd(n - 1, read)[n - 1 := Admitted(read)]
  }

  lemma {:induction false} AllAdmitted(s: System, n: nat) returns (ls: seq<Label>)
    requires s.handlers == map[] && Passes(s.user, s.clock)
    ensures Runs(s, ls) && End(s, ls) == s.(handlers := Crowd(n, s.user.lock))
  {
    ls := [];
    if n > 0 {
      var first := AllAdmitted(s, n - 1);
      var t := End(s, first);
      Pair(t, Fetch(n - 1), Guard(n - 1));
      RunsJoin(s, first, [Fetch(n - 1), Guard(n - 1)]);
      ls := first + [Fetch(n - 1), Guard(n - 1)];
      assert t.handlers[n - 1 := Fetched(s.user)][n - 1 := Admitted(s.user.lock)] == Crowd(n, s.user.lock);
    }
  }

  predicate Rejects(ls: seq<Label>, p: Pid) {
    Decide(p, false) in ls && Write(p) in ls
  }

  lemma RejectsAfter(first: seq<Label>, rest: seq<Label>, p: Pid)
    ensures Rejects(rest, p) ==> Rejects(first + rest, p)
  {
  }

  lemma {:induction false} AllRejected(s: System, n: nat, read: Lock) returns (ls: seq<Label>)
    requires s.handlers == Crowd(n, read)
    ensures Runs(s, ls) && forall p: nat :: p < n ==> Rejects(ls, p)
    ensures End(s, ls).clock == s.clock && End(s, ls).handlers == map[]
    ensures End(s, ls).user == if n == 0 then s.user else s.user.(lock := AfterFailure(read, s.clock))
    decreases n
  {
    ls := [];
    if n > 0 {
      var p := n - 1;
      var t := Next(Next(s, Decide(p, false)), Write(p));
      Pair(s, Decide(p, false), Write(p));
      assert t.handlers == Crowd(p, read);
      var rest := AllRejected(t, p, read);
      RunsJoin(s, [Decide(p, false), Write(p)], rest);
      ls := [Decide(p, false), Write(p)] + rest;
      assert ls[0] == Decide(p, false) && ls[1] == Write(p);
      forall q: nat | q < n
        ensures Rejects(ls, q)
      {
        RejectsAfter([Decide(p, false), Write(p)], rest, q);
      }
    }
  }

  /**
   * From every state with nothing under way and an account that may try: any number of wrong passwords
   * can be rejected at one instant and leave the row as a single failure does, so none of the bounds on
   * the number of failures holds of overlapping logins.
   */
  lemma OverlappingFailuresCountOnce(s: System, n: nat) returns (ls: seq<Label>)
    requires s.handlers == map[] && Passes(s.user, s.clock) && n >= 1
    ensures Runs(s, ls) && forall p: nat :: p < n ==> Rejects(ls, p)
    ensures End(s, ls) == s.(user := s.user.(lock := AfterFailure(s.user.lock, s.clock)))
  {
    var first := AllAdmitted(s, n);
    var rest := AllRejected(End(s, first), n, s.user.lock);
    RunsJoin(s, first, rest);
    ls := first + rest;
    forall p: nat | p < n
      ensures Rejects(ls, p)
    {
      RejectsAfter(first, rest, p);
    }
  }
}
