/**
 * Password resets interleaved at every database statement: a reset token is spent once, except by resets
 * that overlap.
 */
module ResetInterleaving {
  import opened Options
  import opened Accounts
  import S = Sessions

  type Pid = nat

  datatype Handler =
    | Requested(token: string, password: string)
    /** A reset that read its token as valid. */
    | Admitted(token: string, userId: UserId, password: string)
    | PasswordWritten(token: string, userId: UserId)
    | TokenMarked(token: string, userId: UserId)
    | Succeeded(token: string)
    | Failed(reason: S.Outcome)

  datatype System = System(
    rows: seq<S.Row>,
    resets: map<string, S.ResetToken>,
    passwords: map<UserId, string>,
    clock: Millis,
    handlers: map<Pid, Handler>)

  datatype Label =
    | Start(p: Pid, token: string, password: string)
    | Act(p: Pid)
    | Tick(to: Millis)
    | IssueReset(token: string, record: S.ResetToken)
    /** Whatever other handlers do to refresh rows and passwords. */
    | Others(rows: seq<S.Row>, passwords: map<UserId, string>)

  predicate Enabled(s: System, l: Label) {
    match l
    case Start(p, _, _) => p !in s.handlers
    case Act(p) => p in s.handlers
    case Tick(to) => s.clock <= to
    case IssueReset(token, _) => token !in s.resets
    case Others(_, _) => true
  }

  /** One statement of one reset; its length check and the clock it compares with come with the read. */
  function ActStep(s: System, p: Pid): System
    requires p in s.handlers
  {
    match s.handlers[p]
    case Requested(t, password) =>
      var h :=
        if |password| < S.MIN_PASSWORD_LENGTH then Failed(S.WeakPassword)
        else if t !in s.resets || !S.IsValid(s.resets[t], s.clock) then Failed(S.ResetTokenInvalid)
        else Admitted(t, s.resets[t].userId, password);
      s.(handlers := s.handlers[p := h])
    case Admitted(t, u, password) =>
      s.(passwords := s.passwords[u := password], handlers := s.handlers[p := PasswordWritten(t, u)])
    case PasswordWritten(t, u) =>
      var resets := if t in s.resets then s.resets[t := s.resets[t].(used := true)] else s.resets;
      s.(resets := resets, handlers := s.handlers[p := TokenMarked(t, u)])
    case TokenMarked(t, u) =>
      s.(rows := S.RevokeAllForUser(s.rows, u), handlers := s.handlers[p := Succeeded(t)])
    case Succeeded(_) => s
    case Failed(_) => s
  }

  function Next(s: System, l: Label): System
    requires Enabled(s, l)
  {
    match l
    case Start(p, token, password) => s.(handlers := s.handlers[p := Requested(token, password)])
    case Act(p) => ActStep(s, p)
    case Tick(to) => s.(clock := to)
    case IssueReset(token, record) => s.(resets := s.resets[token := record])
    case Others(rows, passwords) => s.(rows := rows, passwords := passwords)
  }

  predicate Runs(s: System, ls: seq<Label>)
    decreases |ls|
  {
    ls == [] || (Enabled(s, ls[0]) && Runs(Next(s, ls[0]), ls[1..]))
  }

  function End(s: System, ls: seq<Label>): System
    requires Runs(s, ls)
    decreases |ls|
  {
    if ls == [] then s else End(Next(s, ls[0]), ls[1..])
  }

  /** The handler is using, or has used, the token. */
  predicate Uses(h: Handler, t: string) {
    match h
    case Admitted(token, _, _) => token == t
    case PasswordWritten(token, _) => token == t
    case TokenMarked(token, _) => token == t
    case Succeeded(token) => token == t
    case _ => false
  }

  predicate IsSpent(s: System, t: string) {
    t in s.resets && s.resets[t].used
  }

  /** A spent token stays spent, and no reset that starts later uses it, in any continuation. */
  lemma {:induction false} SpendingIsFinal(s: System, ls: seq<Label>, t: string, earlier: set<Pid>)
    requires Runs(s, ls) && IsSpent(s, t)
    requires forall p :: p in s.handlers && p !in earlier ==> !Uses(s.handlers[p], t)
    ensures IsSpent(End(s, ls), t)
    ensures forall p :: p in End(s, ls).handlers && p !in earlier ==> !Uses(End(s, ls).handlers[p], t)
    decreases |ls|
  {
    if ls != [] {
      SpendingIsFinal(Next(s, ls[0]), ls[1..], t, earlier);
    }
  }

  /** A reset past its marking statement has its token spent behind it. */
  ghost predicate MarkedAreSpent(s: System) {
    forall p :: p in s.handlers ==>
      && (s.handlers[p].TokenMarked? || s.handlers[p].Succeeded? ==> IsSpent(s, s.handlers[p].token))
      && (s.handlers[p].Admitted? || s.handlers[p].PasswordWritten? ==> s.handlers[p].token in s.resets)
  }

  lemma {:induction false} MarkedThroughout(s: System, ls: seq<Label>)
    requires MarkedAreSpent(s) && Runs(s, ls)
    ensures MarkedAreSpent(End(s, ls))
    decreases |ls|
  {
    if ls != [] {
      MarkedThroughout(Next(s, ls[0]), ls[1..]);
    }
  }

  /** Once a reset has succeeded, none that starts later uses its token: only overlapping resets can share one. */
  lemma OnlyOverlappingResets(s: System, ls: seq<Label>, more: seq<Label>, p: Pid, q: Pid)
    requires s.handlers == map[] && Runs(s, ls) && Runs(End(s, ls), more)
    requires p in End(s, ls).handlers && End(s, ls).handlers[p].Succeeded?
    requires q !in End(s, ls).handlers && q in End(End(s, ls), more).handlers
    ensures !Uses(End(End(s, ls), more).handlers[q], End(s, ls).handlers[p].token)
  {
    MarkedThroughout(s, ls);
    var t := End(s, ls);
    SpendingIsFinal(t, more, t.handlers[p].token, t.handlers.Keys);
  }

  // ---------- runs put together ----------

  lemma Prepend(t: System, rest: seq<Label>, s: System, l: Label) returns (ls: seq<Label>)
    requires Enabled(s, l) && Next(s, l) == t && Runs(t, rest)
    ensures ls == [l] + rest && Runs(s, ls) && End(s, ls) == End(t, rest)
  {
    ls := [l] + rest;
    assert ls[1..] == rest;
  }

  lemma {:induction false} RunsJoin(s: System, first: seq<Label>, rest: seq<Label>)
    requires Runs(s, first) && Runs(End(s, first), rest)
    ensures Runs(s, first + rest) && End(s, first + rest) == End(End(s, first), rest)
    decreases |first|
  {
    if first == [] {
      assert first + rest == rest;
    } else {
      RunsJoin(Next(s, first[0]), first[1..], rest);
      assert (first + rest)[1..] == first[1..] + rest;
    }
  }

  predicate StepsOf(ls: seq<Label>, p: Pid) {
    forall k :: 0 <= k < |ls| ==> (ls[k].Start? || ls[k].Act?) && ls[k].p == p
  }

  /** What an admitted reset leaves when nothing interrupts it. */
  function Finished(s: System, p: Pid): System
    requires p in s.handlers && s.handlers[p].Admitted? && s.handlers[p].token in s.resets
  {
    var Admitted(t, u, password) := s.handlers[p];
    s.(rows := S.RevokeAllForUser(s.rows, u),
       resets := s.resets[t := s.resets[t].(used := true)],
       passwords := s.passwords[u := password],
       handlers := s.handlers[p := Succeeded(t)])
  }

  lemma AdmittedAlone(s: System, p: Pid) returns (ls: seq<Label>)
    requires p in s.handlers && s.handlers[p].Admitted? && s.handlers[p].token in s.resets
    ensures Runs(s, ls) && StepsOf(ls, p) && End(s, ls) == Finished(s, p)
  {
    var s1 := Next(s, Act(p));
    var s2 := Next(s1, Act(p));
    var s3 := Next(s2, Act(p));
    assert s3.handlers == s.handlers[p := Succeeded(s.handlers[p].token)];
    ls := Prepend(s3, [], s2, Act(p));
    ls := Prepend(s2, ls, s1, Act(p));
    ls := Prepend(s1, ls, s, Act(p));
  }

  /** The statements of one reset, run without interference, do and answer what the atomic reset does. */
  lemma ResetAlone(
      s: System, p: Pid, token: string, password: string, parents: seq<Option<nat>>, users: map<UserId, S.Flags>)
    returns (ls: seq<Label>)
    requires p !in s.handlers
    ensures Runs(s, ls) && StepsOf(ls, p)
    ensures var e := End(s, ls);
      var (t, r) := S.Apply(S.State(s.rows, parents, users, s.resets), S.ResetPassword(token, |password|, s.clock));
      && e.rows == t.rows && e.resets == t.resets
      && e.handlers == s.handlers[p := if r.PasswordSet? then Succeeded(token) else Failed(r)]
      && e.passwords == if r.PasswordSet? then s.passwords[s.resets[token].userId := password] else s.passwords
  {
    var s1 := Next(s, Start(p, token, password));
    var s2 := Next(s1, Act(p));
    ls := [];
    if s2.handlers[p].Admitted? {
      ls := AdmittedAlone(s2, p);
      assert s2.handlers[p := Succeeded(token)] == s.handlers[p := Succeeded(token)];
    }
    ls := Prepend(s2, ls, s1, Act(p));
    ls := Prepend(s1, ls, s, Start(p, token, password));
  }

  // ---------- overlapping resets do share a token ----------

  /** Whenever two resets have been admitted with one token both succeed in some run, and the later password stays. */
  lemma AdmittedTogetherBothSucceed(s: System, p: Pid, q: Pid) returns (ls: seq<Label>)
    requires p != q && p in s.handlers && q in s.handlers && s.handlers[p].Admitted? && s.handlers[q].Admitted?
    requires s.handlers[p].token == s.handlers[q].token && s.handlers[p].token in s.resets
    ensures Runs(s, ls)
    ensures End(s, ls).handlers == s.handlers[p := Succeeded(s.handlers[p].token)][q := Succeeded(s.handlers[q].token)]
    ensures var u := s.handlers[q].userId;
      u in End(s, ls).passwords && End(s, ls).passwords[u] == s.handlers[q].password
  {
    var first := AdmittedAlone(s, p);
    var second := AdmittedAlone(End(s, first), q);
    RunsJoin(s, first, second);
    ls := first + second;
  }

  /** So every valid token can be spent twice, by two new resets that overlap. */
  lemma OverlappingResetsShareAToken(s: System, t: string, p: Pid, q: Pid, first: string, second: string)
    returns (ls: seq<Label>)
    requires t in s.resets && S.IsValid(s.resets[t], s.clock)
    requires |first| >= S.MIN_PASSWORD_LENGTH && |second| >= S.MIN_PASSWORD_LENGTH
    requires p != q && p !in s.handlers && q !in s.handlers
    ensures Runs(s, ls)
    ensures End(s, ls).handlers == s.handlers[p := Succeeded(t)][q := Succeeded(t)]
    ensures var u := s.resets[t].userId; u in End(s, ls).passwords && End(s, ls).passwords[u] == second
  {
    var s1 := Next(s, Start(p, t, first));
    var s2 := Next(s1, Start(q, t, second));
    var s3 := Next(s2, Act(p));
    var s4 := Next(s3, Act(q));
    ls := AdmittedTogetherBothSucceed(s4, p, q);
    assert s4.handlers[p := Succeeded(t)][q := Succeeded(t)] == s.handlers[p := Succeeded(t)][q := Succeeded(t)];
    ls := Prepend(s4, ls, s3, Act(q));
    ls := Prepend(s3, ls, s2, Act(p));
    ls := Prepend(s2, ls, s1, Start(q, t, second));
    ls := Prepend(s1, ls, s, Start(p, t, first));
  }

  // ---------- exactly when a token can be spent twice ----------

  /** From wherever it is, a reset that uses the token can go on to succeed. */
  lemma {:induction false} Completes(s: System, p: Pid, t: string) returns (ls: seq<Label>)
    requires p in s.handlers && Uses(s.handlers[p], t)
    ensures Runs(s, ls) && End(s, ls).handlers == s.handlers[p := Succeeded(t)]
    decreases match s.handlers[p]
      case Admitted(_, _, _) => 3
      case PasswordWritten(_, _) => 2
      case TokenMarked(_, _) => 1
      case _ => 0
  {
    if s.handlers[p].Succeeded? {
      ls := [];
      assert s.handlers == s.handlers[p := Succeeded(t)];
    } else {
      var s1 := Next(s, Act(p));
      ls := Completes(s1, p, t);
      assert s1.handlers[p := Succeeded(t)] == s.handlers[p := Succeeded(t)];
      ls := Prepend(s1, ls, s, Act(p));
    }
  }

  /** Two resets have succeeded, or are on the way to succeed, with the token. */
  ghost predicate TwoUse(s: System, t: string) {
    exists p, q :: p != q && p in s.handlers && q in s.handlers && Uses(s.handlers[p], t) && Uses(s.handlers[q], t)
  }

  ghost predicate SpentTwice(s: System, t: string) {
    exists p, q :: p != q && p in s.handlers && q in s.handlers && s.handlers[p] == s.handlers[q] == Succeeded(t)
  }

  ghost predicate CanBeSpentTwice(s: System, t: string) {
    exists ls :: Runs(s, ls) && SpentTwice(End(s, ls), t)
  }

  /** The token is closed to resets that have not yet read it. */
  predicate IsClosed(s: System, t: string) {
    t in s.resets && !S.IsValid(s.resets[t], s.clock)
  }

  /** Once a token is used or expired, nobody comes to use it who did not before. */
  lemma {:induction false} ClosedToNewcomers(s: System, ls: seq<Label>, t: string)
    requires Runs(s, ls) && IsClosed(s, t)
    ensures forall p :: p in End(s, ls).handlers && Uses(End(s, ls).handlers[p], t) ==>
      p in s.handlers && Uses(s.handlers[p], t)
    decreases |ls|
  {
    if ls != [] {
      ClosedToNewcomers(Next(s, ls[0]), ls[1..], t);
    }
  }

  lemma TwoUsersCan(s: System, t: string)
    requires TwoUse(s, t)
    ensures CanBeSpentTwice(s, t)
  {
    var p, q :| p != q && p in s.handlers && q in s.handlers && Uses(s.handlers[p], t) && Uses(s.handlers[q], t);
    var first := Completes(s, p, t);
    var second := Completes(End(s, first), q, t);
    RunsJoin(s, first, second);
    var e := End(s, first + second);
    assert p in e.handlers && q in e.handlers && e.handlers[p] == e.handlers[q] == Succeeded(t);
    assert Runs(s, first + second) && SpentTwice(End(s, first + second), t);
  }

  /** A number above all of them. */
  lemma {:induction false} Above(pids: set<Pid>) returns (p: Pid)
    ensures forall q :: q in pids ==> q < p
    decreases |pids|
  {
    p := 0;
    if q :| q in pids {
      p := Above(pids - {q});
      assert pids == (pids - {q}) + {q};
      p := if q >= p then q + 1 else p;
    }
  }

  lemma ValidCan(s: System, t: string)
    requires t in s.resets && S.IsValid(s.resets[t], s.clock)
    ensures CanBeSpentTwice(s, t)
  {
    var p := Above(s.handlers.Keys);
    var password := seq(S.MIN_PASSWORD_LENGTH, _ => 'x');
    var ls := OverlappingResetsShareAToken(s, t, p, p + 1, password, password);
    var e := End(s, ls);
    assert p in e.handlers && p + 1 in e.handlers && e.handlers[p] == e.handlers[p + 1] == Succeeded(t);
    assert Runs(s, ls) && SpentTwice(End(s, ls), t);
  }

  lemma ClosedCannot(s: System, t: string)
    requires IsClosed(s, t) && CanBeSpentTwice(s, t)
    ensures TwoUse(s, t)
  {
    var ls :| Runs(s, ls) && SpentTwice(End(s, ls), t);
    var e := End(s, ls);
    var p, q :| p != q && p in e.handlers && q in e.handlers && e.handlers[p] == e.handlers[q] == Succeeded(t);
    ClosedToNewcomers(s, ls, t);
    assert Uses(e.handlers[p], t) && Uses(e.handlers[q], t);
    assert Uses(s.handlers[p], t) && Uses(s.handlers[q], t);
  }

  /**
   * From every state, for every token on record: in some run two resets succeed with it if and only if it
   * is valid now, or two resets use it already.
   */
  lemma CanBeSpentTwiceIff(s: System, t: string)
    requires t in s.resets
    ensures CanBeSpentTwice(s, t) <==> (!s.resets[t].used && s.clock < s.resets[t].expiresAt) || TwoUse(s, t)
  {
    if TwoUse(s, t) {
      TwoUsersCan(s, t);
    } else if S.IsValid(s.resets[t], s.clock) {
      ValidCan(s, t);
    } else if CanBeSpentTwice(s, t) {
      ClosedCannot(s, t);
    }
  }
}
