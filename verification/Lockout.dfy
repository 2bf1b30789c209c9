/** The failed-login window and lock, one handler run at a time. */
module Lockout {
  import opened Options
  import opened Accounts

  const CAPTCHA_ATTEMPT_THRESHOLD := 3
  const LOCK_ATTEMPT_THRESHOLD := 5
  const LOCK_DURATION_MS := 30 * 60 * 1000
  const FAILED_LOGIN_WINDOW_MS := 15 * 60 * 1000

  datatype Outcome =
    | NotVerified
    | Blocked
    | AccountLocked(until: Millis)
    | InvalidCredentials(requiresCaptcha: bool)
    | Success

  /**
   * The start of the window a failure at `now` belongs to. The program compares window starts by
   * object identity; comparing by value decides the same, as a fresh start never equals a stale one.
   */
  function ResolveWindowStart(current: Option<Millis>, now: Millis): Millis {
    if current.None? then now
    else if now - current.value > FAILED_LOGIN_WINDOW_MS then now
    else current.value
  }

  /** What a failure at `now` writes, given the columns its handler read. */
  function AfterFailure(read: Lock, now: Millis): Lock {
    var start := ResolveWindowStart(read.windowStart, now);
    var attempts := if read.windowStart == Some(start) then read.attempts + 1 else 1;
    Lock(attempts, Some(start), if attempts >= LOCK_ATTEMPT_THRESHOLD then Some(now + LOCK_DURATION_MS) else None)
  }

  predicate IsLocked(lock: Lock, now: Millis) {
    lock.lockedUntil.Some? && lock.lockedUntil.value > now
  }

  /** Attempts read the clock twice: for the lock check and, after the password check, for the write. */
  datatype Event =
    | Attempt(check: Millis, write: Millis, valid: bool)
    | Edit(verified: bool, blocked: bool, password: Option<string>)
    | Unlock

  function Login(u: User, check: Millis, write: Millis, valid: bool): (r: (User, Outcome)) {
    if !u.verified then (u, NotVerified)
    else if u.blocked then (u, Blocked)
    else if IsLocked(u.lock, check) then (u, AccountLocked(u.lock.lockedUntil.value))
    else if u.password.None? || !valid then
      var lock := AfterFailure(u.lock, write);
      (u.(lock := lock), InvalidCredentials(lock.attempts >= CAPTCHA_ATTEMPT_THRESHOLD))
    else (u.(lock := CLEAN), Success)
  }

  function Step(u: User, e: Event): User {
    match e
    case Attempt(check, write, valid) => Login(u, check, write, valid).0
    case Edit(verified, blocked, password) => u.(verified := verified, blocked := blocked, password := password)
    case Unlock => u.(blocked := false, lock := CLEAN)
  }

  function After(u: User, es: seq<Event>): User {
    if es == [] then u else Step(After(u, es[..|es| - 1]), es[|es| - 1])
  }

  /** Handler runs follow one another, and so do their clock readings. */
  predicate Serial(es: seq<Event>) {
    && (forall i :: 0 <= i < |es| && es[i].Attempt? ==> es[i].check <= es[i].write)
    && (forall i, j :: 0 <= i < j < |es| && es[i].Attempt? && es[j].Attempt? ==> es[i].write <= es[j].check)
  }

  predicate IsCounted(u: User, e: Event) {
    e.Attempt? && Login(u, e.check, e.write, e.valid).1.InvalidCredentials?
  }

  predicate Clears(u: User, e: Event) {
    e.Unlock? || (e.Attempt? && Login(u, e.check, e.write, e.valid).1.Success?)
  }

  /** The times of the counted failures since the last success or unlock. */
  function FailuresSinceClear(u: User, es: seq<Event>): seq<Millis> {
    if es == [] then []
    else
      var front, e := es[..|es| - 1], es[|es| - 1];
      var before := After(u, front);
      if Clears(before, e) then []
      else if IsCounted(before, e) then FailuresSinceClear(u, front) + [e.write]
      else FailuresSinceClear(u, front)
  }

  // ---------- windows, read off the failure times alone ----------

  /** Index of the failure that opened the fixed window the last failure falls in. */
  function Head(ts: seq<Millis>): (h: nat)
    requires ts != []
    ensures h < |ts|
  {
    var n := |ts| - 1;
    if n == 0 then 0
    else
      var h := Head(ts[..n]);
      if ts[n] - ts[h] <= FAILED_LOGIN_WINDOW_MS then h else n
  }

  function Streak(ts: seq<Millis>): nat {
    if ts == [] then 0 else |ts| - Head(ts)
  }

  /** The times a run can show: in order, and the fifth of a window is followed by half an hour without any. */
  predicate Admissible(ts: seq<Millis>) {
    |ts| <= 1 ||
    var n := |ts| - 1;
    && Admissible(ts[..n])
    && ts[n - 1] <= ts[n]
    && (Streak(ts[..n]) >= LOCK_ATTEMPT_THRESHOLD ==> ts[n - 1] + LOCK_DURATION_MS <= ts[n])
  }

  /** The lockout columns as a function of the failure times. */
  function LockFor(ts: seq<Millis>): Lock {
    if ts == [] then CLEAN
    else
      Lock(Streak(ts), Some(ts[Head(ts)]),
           if Streak(ts) >= LOCK_ATTEMPT_THRESHOLD then Some(ts[|ts| - 1] + LOCK_DURATION_MS) else None)
  }

  lemma FailureHasAnEvent(u: User, es: seq<Event>) returns (k: nat)
    requires FailuresSinceClear(u, es) != []
    ensures k < |es| && es[k].Attempt?
    ensures var ts := FailuresSinceClear(u, es); es[k].write == ts[|ts| - 1]
  {
    var front, e := es[..|es| - 1], es[|es| - 1];
    if IsCounted(After(u, front), e) {
      k := |es| - 1;
    } else {
      k := FailureHasAnEvent(u, front);
    }
  }

  lemma OneMoreFailure(ts: seq<Millis>, t: Millis)
    ensures AfterFailure(LockFor(ts), t) == LockFor(ts + [t])
  {
    assert (ts + [t])[..|ts|] == ts;
  }

  lemma AdmissibleExtended(ts: seq<Millis>, t: Millis)
    requires Admissible(ts)
    requires ts != [] ==> ts[|ts| - 1] <= t
    requires ts != [] && Streak(ts) >= LOCK_ATTEMPT_THRESHOLD ==> ts[|ts| - 1] + LOCK_DURATION_MS <= t
    ensures Admissible(ts + [t])
  {
    var r := ts + [t];
    var n := |ts|;
    assert r[..n] == ts && r[n] == t;
    if n > 0 {
      assert r[n - 1] == ts[n - 1];
    }
  }

  /** One event keeps the row in step with the failure times. */
  lemma RowStep(before: User, ts: seq<Millis>, e: Event)
    requires Admissible(ts) && before.lock == LockFor(ts)
    requires e.Attempt? ==> e.check <= e.write && (ts != [] ==> ts[|ts| - 1] <= e.check)
    ensures Clears(before, e) ==> Step(before, e).lock == LockFor([])
    ensures !Clears(before, e) && IsCounted(before, e) ==>
      Step(before, e).lock == LockFor(ts + [e.write]) && Admissible(ts + [e.write])
    ensures !Clears(before, e) && !IsCounted(before, e) ==> Step(before, e).lock == LockFor(ts)
  {
    if IsCounted(before, e) {
      OneMoreFailure(ts, e.write);
      AdmissibleExtended(ts, e.write);
    }
  }

  /**
   * In every run from a clean account the row says exactly what happened since the last clearing:
   * attempts counts the failures of the current window, the window starts at its first failure, and
   * the lock is set at the fifth, half an hour ahead.
   */
  lemma {:induction false} RowTellsHistory(u: User, es: seq<Event>)
    requires u.lock == CLEAN && Serial(es)
    ensures Admissible(FailuresSinceClear(u, es))
    ensures After(u, es).lock == LockFor(FailuresSinceClear(u, es))
  {
    if es != [] {
      var front, e := es[..|es| - 1], es[|es| - 1];
      RowTellsHistory(u, front);
      var ts := FailuresSinceClear(u, front);
      if ts != [] {
        var k := FailureHasAnEvent(u, front);
        assert es[k] == front[k];
      }
      RowStep(After(u, front), ts, e);
    }
  }

  /** Whether the answer asks for a captcha: from the third failure of the window on. */
  lemma CaptchaFromTheThirdFailure(u: User, es: seq<Event>, e: Event)
    requires u.lock == CLEAN && Serial(es + [e]) && IsCounted(After(u, es), e)
    ensures Login(After(u, es), e.check, e.write, e.valid).1.requiresCaptcha
         <==> Streak(FailuresSinceClear(u, es + [e])) >= 3
  {
    assert (es + [e])[..|es|] == es;
    RowTellsHistory(u, es);
    OneMoreFailure(FailuresSinceClear(u, es), e.write);
  }

  /**
   * In every run, what an attempt is answered, on the account's own columns and the failures on record:
   * an unverified or blocked account is always turned away; any other is turned away as locked exactly
   * during the half hour after the fifth failure of a window, and told its end; past that the right
   * password, and only that, succeeds. Whoever is turned away leaves the account as it was.
   */
  lemma LockedOutExactly(u: User, es: seq<Event>, e: Event)
    requires u.lock == CLEAN && e.Attempt? && Serial(es + [e])
    ensures var ts := FailuresSinceClear(u, es); var v := After(u, es);
      var (w, r) := Login(v, e.check, e.write, e.valid);
      var isLocked := Streak(ts) >= 5 && e.check < ts[|ts| - 1] + 1_800_000;
      && (r.NotVerified? <==> !v.verified)
      && (r.Blocked? <==> v.verified && v.blocked)
      && (r.AccountLocked? <==> v.verified && !v.blocked && isLocked)
      && (r.AccountLocked? ==> r.until == ts[|ts| - 1] + 1_800_000)
      && (r.Success? <==> v.verified && !v.blocked && !isLocked && v.password.Some? && e.valid)
      && (r.NotVerified? || r.Blocked? || r.AccountLocked? ==> w == v)
      && (r.Success? ==> w == v.(lock := Lock(0, None, None)))
      && (r.InvalidCredentials? ==> w == v.(lock := w.lock))
  {
    assert forall i :: 0 <= i < |es| ==> (es + [e])[i] == es[i];
    RowTellsHistory(u, es);
  }

  /** The plain failing attempts at given times. */
  function FailingAttempts(ts: seq<Millis>): (es: seq<Event>)
    ensures |es| == |ts|
    ensures forall i :: 0 <= i < |ts| ==> es[i] == Attempt(ts[i], ts[i], false)
  {
    seq(|ts|, i requires 0 <= i < |ts| => Attempt(ts[i], ts[i], false))
  }

  lemma {:induction false} AdmissibleIsSorted(ts: seq<Millis>)
    requires Admissible(ts)
    ensures forall i, j :: 0 <= i <= j < |ts| ==> ts[i] <= ts[j]
  {
    if |ts| > 1 {
      AdmissibleIsSorted(ts[..|ts| - 1]);
    }
  }

  lemma FailingStep(before: User, ts: seq<Millis>, t: Millis)
    requires before.verified && !before.blocked && before.lock == LockFor(ts) && Admissible(ts + [t])
    ensures var e := Attempt(t, t, false);
      IsCounted(before, e) && !Clears(before, e) && Step(before, e) == before.(lock := LockFor(ts + [t]))
  {
    assert (ts + [t])[..|ts|] == ts;
    OneMoreFailure(ts, t);
  }

  lemma RunExtended(u: User, es: seq<Event>, e: Event)
    ensures After(u, es + [e]) == Step(After(u, es), e)
    ensures IsCounted(After(u, es), e) && !Clears(After(u, es), e) ==>
      FailuresSinceClear(u, es + [e]) == FailuresSinceClear(u, es) + [e.write]
  {
    assert (es + [e])[..|es|] == es;
  }

  /** Conversely every admissible sequence of times is what some run shows. */
  lemma {:induction false} AdmissibleTimesOccur(u: User, ts: seq<Millis>)
    requires u.lock == CLEAN && u.verified && !u.blocked && Admissible(ts)
    ensures FailuresSinceClear(u, FailingAttempts(ts)) == ts
    ensures After(u, FailingAttempts(ts)) == u.(lock := LockFor(ts))
  {
    if ts == [] {
      assert FailingAttempts(ts) == [];
    } else {
      var front, t := ts[..|ts| - 1], ts[|ts| - 1];
      assert ts == front + [t];
      var es := FailingAttempts(front);
      AdmissibleTimesOccur(u, front);
      FailingStep(After(u, es), front, t);
      RunExtended(u, es, Attempt(t, t, false));
      assert FailingAttempts(ts) == es + [Attempt(t, t, false)];
    }
  }

  lemma FailingAttemptsAreSerial(ts: seq<Millis>)
    requires Admissible(ts)
    ensures Serial(FailingAttempts(ts))
  {
    AdmissibleIsSorted(ts);
  }

  // ---------- bounds on the number of failures ----------

  /** A window holds at most five failures, and every failure before it has paid (W + 1) / 4 of elapsed time. */
  lemma {:induction false} EarlierWindowsAreCharged(ts: seq<Millis>)
    requires Admissible(ts) && ts != []
    ensures Streak(ts) <= LOCK_ATTEMPT_THRESHOLD
    ensures ts[0] <= ts[Head(ts)] <= ts[|ts| - 1]
    ensures Head(ts) * (FAILED_LOGIN_WINDOW_MS + 1) <= 4 * (ts[Head(ts)] - ts[0])
  {
    if |ts| > 1 {
      EarlierWindowsAreCharged(ts[..|ts| - 1]);
    }
  }

  lemma Amortise(n: int, head: int, charged: int, elapsed: int)
    requires n - LOCK_ATTEMPT_THRESHOLD <= head && charged <= elapsed
    requires head * (FAILED_LOGIN_WINDOW_MS + 1) <= 4 * charged
    ensures (n - 5) * (FAILED_LOGIN_WINDOW_MS + 1) <= 4 * elapsed
  {
  }

  lemma AmortisedTimes(ts: seq<Millis>)
    requires Admissible(ts) && ts != []
    ensures (|ts| - 5) * (FAILED_LOGIN_WINDOW_MS + 1) <= 4 * (ts[|ts| - 1] - ts[0])
  {
    EarlierWindowsAreCharged(ts);
    Amortise(|ts|, Head(ts), ts[Head(ts)] - ts[0], ts[|ts| - 1] - ts[0]);
  }

  /** At most five failures beyond four for every W + 1 ms elapsed, whatever the run. */
  lemma FailuresAreAmortised(u: User, es: seq<Event>)
    requires u.lock == CLEAN && Serial(es)
    requires FailuresSinceClear(u, es) != []
    ensures var ts := FailuresSinceClear(u, es);
      (|ts| - 5) * 900_001 <= 4 * (ts[|ts| - 1] - ts[0])
  {
    RowTellsHistory(u, es);
    AmortisedTimes(FailuresSinceClear(u, es));
  }

  predicate OpensWindow(ts: seq<Millis>, t: Millis) {
    ts == [] || t - ts[Head(ts)] > FAILED_LOGIN_WINDOW_MS
  }

  lemma HeadOfExtended(ts: seq<Millis>, t: Millis)
    ensures Head(ts + [t]) == if OpensWindow(ts, t) then |ts| else Head(ts)
  {
    assert (ts + [t])[..|ts|] == ts;
  }

  lemma Extend(ts: seq<Millis>, t: Millis)
    requires Admissible(ts)
    requires ts != [] ==> ts[|ts| - 1] <= t && Streak(ts) < LOCK_ATTEMPT_THRESHOLD
    ensures Admissible(ts + [t])
    ensures Head(ts + [t]) == if OpensWindow(ts, t) then |ts| else Head(ts)
  {
    var r := ts + [t];
    assert r[..|ts|] == ts;
    HeadOfExtended(ts, t);
  }

  lemma AddToWindow(r: seq<Millis>, t: Millis)
    requires r != [] && Admissible(r) && Streak(r) < LOCK_ATTEMPT_THRESHOLD
    requires r[|r| - 1] == r[Head(r)] == t
    ensures Admissible(r + [t]) && Head(r + [t]) == Head(r)
  {
    Extend(r, t);
  }

  /** Up to five failures fit at the instant a new window opens. */
  lemma {:induction false} Burst(ts: seq<Millis>, t: Millis, n: nat) returns (r: seq<Millis>)
    requires Admissible(ts) && OpensWindow(ts, t) && 1 <= n <= 5
    requires ts != [] ==> ts[|ts| - 1] <= t && Streak(ts) < LOCK_ATTEMPT_THRESHOLD
    ensures |r| == |ts| + n && Admissible(r) && Head(r) == |ts|
    ensures forall k :: 0 <= k < |r| ==> r[k] == if k < |ts| then ts[k] else t
  {
    if n == 1 {
      Extend(ts, t);
      r := ts + [t];
    } else {
      r := Burst(ts, t, n - 1);
      AddToWindow(r, t);
      r := r + [t];
    }
  }

  /** A run that shows given admissible times. */
  lemma RunShowing(u: User, ts: seq<Millis>) returns (es: seq<Event>)
    requires u.lock == CLEAN && u.verified && !u.blocked && Admissible(ts)
    ensures Serial(es) && FailuresSinceClear(u, es) == ts
  {
    es := FailingAttempts(ts);
    FailingAttemptsAreSerial(ts);
    AdmissibleTimesOccur(u, ts);
  }

  /** n windows with four failures each at their opening instant, one every W + 1 ms. */
  lemma {:induction false} Fours(n: nat) returns (ts: seq<Millis>)
    ensures Admissible(ts) && |ts| == 4 * n
    ensures n > 0 ==> Streak(ts) == 4 && ts[0] == 0
    ensures n > 0 ==> ts[|ts| - 1] == ts[Head(ts)] == (n - 1) * (FAILED_LOGIN_WINDOW_MS + 1)
  {
    if n == 0 {
      ts := [];
    } else {
      ts := Fours(n - 1);
      ts := Burst(ts, (n - 1) * (FAILED_LOGIN_WINDOW_MS + 1), 4);
    }
  }

  lemma TightTimes(n: nat) returns (ts: seq<Millis>)
    ensures Admissible(ts) && |ts| == 4 * n + 5
    ensures ts[0] == 0 && ts[|ts| - 1] == n * (FAILED_LOGIN_WINDOW_MS + 1)
  {
    ts := Fours(n);
    ts := Burst(ts, n * (FAILED_LOGIN_WINDOW_MS + 1), 5);
  }

  /** The amortised bound is attained, for every number of windows. */
  lemma AmortisedBoundIsTight(u: User, n: nat) returns (es: seq<Event>)
    requires u.lock == CLEAN && u.verified && !u.blocked
    ensures Serial(es)
    ensures var ts := FailuresSinceClear(u, es);
      |ts| == 4 * n + 5 &&
      (|ts| - 5) * 900_001 == 4 * (ts[|ts| - 1] - ts[0])
  {
    var ts := TightTimes(n);
    es := RunShowing(u, ts);
  }

  /** heads[k] is the index of the failure that opened the window of failure k. */
  predicate IsHead(ts: seq<Millis>, heads: seq<nat>, k: nat)
    requires k < |ts| == |heads|
  {
    && heads[k] <= k < heads[k] + LOCK_ATTEMPT_THRESHOLD
    && (k > 0 ==>
          var before := heads[k - 1];
          && before < k
          && heads[k] == (if ts[k] - ts[before] <= FAILED_LOGIN_WINDOW_MS then before else k)
          && (k == before + LOCK_ATTEMPT_THRESHOLD ==> ts[k - 1] + LOCK_DURATION_MS <= ts[k]))
  }

  predicate AreHeads(ts: seq<Millis>, heads: seq<nat>) {
    |heads| == |ts| && forall k: nat :: k < |ts| ==> IsHead(ts, heads, k)
  }

  lemma HeadsExtended(front: seq<Millis>, heads: seq<nat>, t: Millis, h: nat)
    requires AreHeads(front, heads) && front != []
    requires var n := |front|; var last := heads[n - 1];
      && last < n
      && h == (if t - front[last] <= FAILED_LOGIN_WINDOW_MS then last else n)
      && n < h + LOCK_ATTEMPT_THRESHOLD
      && (n == last + LOCK_ATTEMPT_THRESHOLD ==> front[n - 1] + LOCK_DURATION_MS <= t)
    ensures AreHeads(front + [t], heads + [h])
  {
    var ts, hs := front + [t], heads + [h];
    forall k: nat | k < |ts|
      ensures IsHead(ts, hs, k)
    {
      if k < |front| {
        assert IsHead(front, heads, k);
      }
    }
  }

  lemma HeadOfNext(ts: seq<Millis>)
    requires |ts| > 1 && Admissible(ts)
    ensures var n := |ts| - 1; var front := ts[..n]; var last := Head(front);
      && Admissible(front)
      && Head(ts) == (if ts[n] - front[last] <= FAILED_LOGIN_WINDOW_MS then last else n)
      && n < Head(ts) + LOCK_ATTEMPT_THRESHOLD
      && (n == last + LOCK_ATTEMPT_THRESHOLD ==> front[n - 1] + LOCK_DURATION_MS <= ts[n])
  {
    EarlierWindowsAreCharged(ts);
  }

  lemma {:induction false} AdmissibleHasHeads(ts: seq<Millis>) returns (heads: seq<nat>)
    requires Admissible(ts)
    ensures AreHeads(ts, heads)
    ensures ts != [] ==> heads[|ts| - 1] == Head(ts)
  {
    if |ts| <= 1 {
      heads := seq(|ts|, _ => 0);
    } else {
      var front, t := ts[..|ts| - 1], ts[|ts| - 1];
      HeadOfNext(ts);
      heads := AdmissibleHasHeads(front);
      HeadsExtended(front, heads, t, Head(ts));
      heads := heads + [Head(ts)];
      assert ts == front + [t];
    }
  }

  /**
   * Within W ms of failure i only its own window and at most one later one are met, and the later
   * one starts at most three failures on.
   */
  lemma {:induction false} TwoWindows(ts: seq<Millis>, heads: seq<nat>, i: nat, k: nat)
    requires AreHeads(ts, heads) && i <= k < |ts|
    requires forall a, b :: 0 <= a <= b < |ts| ==> ts[a] <= ts[b]
    requires ts[k] - ts[i] <= FAILED_LOGIN_WINDOW_MS
    ensures heads[k] == heads[i] || i < heads[k] <= i + 3
  {
    if k > i {
      assert ts[i] <= ts[k - 1] <= ts[k];
      assert IsHead(ts, heads, k) && IsHead(ts, heads, k - 1) && IsHead(ts, heads, i);
      TwoWindows(ts, heads, i, k - 1);
      var h := heads[k - 1];
      if h > i {
        assert ts[i] <= ts[h];
      }
    }
  }

  /** Nine failures never fall within W ms. */
  lemma NoNineWithinAWindow(ts: seq<Millis>, i: nat)
    requires Admissible(ts) && i + 8 < |ts|
    ensures ts[i + 8] - ts[i] > FAILED_LOGIN_WINDOW_MS
  {
    var heads := AdmissibleHasHeads(ts);
    AdmissibleIsSorted(ts);
    assert IsHead(ts, heads, i) && IsHead(ts, heads, i + 8);
    if ts[i + 8] - ts[i] <= FAILED_LOGIN_WINDOW_MS {
      TwoWindows(ts, heads, i, i + 8);
    }
  }

  /** Any closed interval of W ms holds at most eight counted failures of a run. */
  lemma AtMostEightPerWindow(u: User, es: seq<Event>, i: nat, j: nat)
    requires u.lock == CLEAN && Serial(es)
    requires i <= j < |FailuresSinceClear(u, es)|
    requires FailuresSinceClear(u, es)[j] - FailuresSinceClear(u, es)[i] <= 900_000
    ensures j - i + 1 <= 8
  {
    var ts := FailuresSinceClear(u, es);
    RowTellsHistory(u, es);
    if j >= i + 8 {
      AdmissibleIsSorted(ts);
      NoNineWithinAWindow(ts, i);
    }
  }

  /** Eight do occur, within a single millisecond. */
  lemma EightDoOccur(u: User) returns (es: seq<Event>)
    requires u.lock == CLEAN && u.verified && !u.blocked
    ensures Serial(es)
    ensures var ts := FailuresSinceClear(u, es); |ts| == 9 && ts[8] - ts[1] == 1
  {
    var ts := EightTimes();
    es := RunShowing(u, ts);
  }

  /** One failure, three more at the last instant of its window, five at the next. */
  lemma EightTimes() returns (ts: seq<Millis>)
    ensures Admissible(ts) && |ts| == 9 && ts[8] - ts[1] == 1
  {
    var w := FAILED_LOGIN_WINDOW_MS;
    ts := [0];
    assert Admissible(ts) && Head(ts) == 0;
    ts := AddLate(ts, w);
    ts := AddLate(ts, w);
    ts := AddLate(ts, w);
    ts := Burst(ts, w + 1, 5);
  }

  lemma AddLate(ts: seq<Millis>, t: Millis) returns (r: seq<Millis>)
    requires ts != [] && Admissible(ts) && ts[|ts| - 1] <= t && Streak(ts) < LOCK_ATTEMPT_THRESHOLD
    requires Head(ts) == 0 && t - ts[0] <= FAILED_LOGIN_WINDOW_MS
    ensures r == ts + [t] && Admissible(r) && Head(r) == 0
  {
    Extend(ts, t);
    r := ts + [t];
  }
}
